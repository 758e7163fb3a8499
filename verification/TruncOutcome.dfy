/** What truncating a chain can come to: the outcomes, what they keep, and what they lose (cluster.c). */
module TruncOutcomes {
  import opened Words
  import opened FatTables
  import opened Chains
  import opened VolumeStates
  import opened Suballoc
  import opened Volumes
  import opened TruncSpec

  // ---- the walk to the target ------------------------------------------------

  /** The first p clusters have been passed, all with an index below fi; the walk stands at `cluster`. */
  ghost predicate Walking(fat: Fat, head: ulong, cs: seq<ulong>, tail: ulong, fi: nat, p: nat, cluster: ulong) {
    && Chain(fat, head, cs, tail) && InTable(fat, cs) && p <= |cs|
    && cluster == (if p < |cs| then cs[p] else tail)
    && forall j :: 0 <= j < p ==> Index(fat, cs, j) < fi
  }

  lemma WalkingStarts(fat: Fat, head: ulong, cs: seq<ulong>, tail: ulong, fi: nat)
    requires Chain(fat, head, cs, tail)
    ensures Walking(fat, head, cs, tail, fi, 0, head)
  {
    WalkLive(fat, head, cs, tail);
  }

  /** Where a walk stands: in the chain, or at its end. */
  lemma WalkingAt(fat: Fat, head: ulong, cs: seq<ulong>, tail: ulong, fi: nat, p: nat, cluster: ulong)
    requires Walking(fat, head, cs, tail, fi, p, cluster)
    ensures p <= |cs| && cluster == if p < |cs| then cs[p] else tail
  {
  }

  lemma WalkingMeets(fat: Fat, head: ulong, cs: seq<ulong>, tail: ulong, fi: nat, p: nat, cluster: ulong)
    requires Walking(fat, head, cs, tail, fi, p, cluster) && Live(fat, cluster)
    ensures p < |cs| && cs[p] == cluster
    ensures fat[cluster].FATCluster == if p + 1 < |cs| then cs[p + 1] else tail
    ensures if fat[cluster].FATIndex >= fi then Below(fat, cs, fi, 0) == p
            else Walking(fat, head, cs, tail, fi, p + 1, fat[cluster].FATCluster)
  {
    WalkAt(fat, head, cs, tail, p);
    assert Index(fat, cs, p) == fat[cluster].FATIndex;
  }

  lemma WalkingEnds(fat: Fat, head: ulong, cs: seq<ulong>, tail: ulong, fi: nat, p: nat, cluster: ulong)
    requires Walking(fat, head, cs, tail, fi, p, cluster) && !Live(fat, cluster)
    ensures p == |cs| == Below(fat, cs, fi, 0) && cluster == tail
  {
    if p < |cs| { WalkAt(fat, head, cs, tail, p); }
  }

  lemma WalkingInTable(fat: Fat, head: ulong, cs: seq<ulong>, tail: ulong, fi: nat, p: nat, cluster: ulong)
    requires Walking(fat, head, cs, tail, fi, p, cluster)
    ensures Chain(fat, head, cs, tail) && InTable(fat, cs)
    ensures p == |cs| > 0 ==> TailIndex(fat, cs) == fat[cs[p - 1]].FATIndex + 1
  {
  }

  // ---- what a truncation did -------------------------------------------------

  /** What the end of a freed chain leaves to do: a record goes too, if suballocation is allowed. */
  ghost function TailCode(tail: ulong, sa: bool): ulong {
    if IsSuballoc(tail) && !sa then NOT_PERMITTED else 0
  }

  /** Ending the chain where it ends already changes nothing. */
  lemma EndedAtTail(segs: seq<Segment>, s: VolState, head: ulong, cs: seq<ulong>, tail: ulong)
    requires WellFormed(segs, s) && Chain(s.fat, head, cs, tail) && InBits(s, cs)
    ensures Cut(segs, s, cs, |cs|, tail) == Ended(s, cs, |cs|, tail) == s
    ensures cs == [] ==> head == tail
  {
    if cs != [] { WalkAt(s.fat, head, cs, tail, |cs| - 1); }
    assert cs[|cs|..] == [];
  }

  lemma CutAtEnd(segs: seq<Segment>, s: VolState, cs: seq<ulong>, link: ulong)
    requires WellFormed(segs, s) && InBits(s, cs)
    ensures Cut(segs, s, cs, |cs|, link) == Ended(s, cs, |cs|, link)
  {
    assert cs[|cs|..] == [];
  }

  lemma EmptyChain(fat: Fat, head: ulong, cs: seq<ulong>, tail: ulong)
    requires Chain(fat, head, cs, tail) && |fat| <= MARKER && IsMarker(head)
    ensures cs == [] && tail == head
  {
  }

  /** A chain that ends outside the table is decided by its own entries. */
  lemma ChainStays(fat: Fat, now: Fat, head: ulong, cs: seq<ulong>, tail: ulong)
    requires Chain(fat, head, cs, tail) && |now| == |fat| <= tail && forall c :: c in cs && c < |fat| ==> now[c] == fat[c]
    ensures Chain(now, head, cs, tail)
  {
    WalkFrame(fat, now, head, cs, tail);
  }

  /** s has grown to mid, and the entries of cs have not changed. */
  ghost predicate Growth(segs: seq<Segment>, s: VolState, mid: VolState, cs: seq<ulong>) {
    && Grows(segs, s, mid) && |mid.fat| == |s.fat|
    && forall c: ulong :: c in cs && c < |s.fat| ==> mid.fat[c] == s.fat[c]
  }

  /** The growth of the records' chains before a cut, if records are written. */
  ghost predicate Grown(segs: seq<Segment>, s: VolState, mid: VolState, cs: seq<ulong>, sa: bool) {
    && WellFormed(segs, mid) && |mid.fat| == |s.fat| && InBits(mid, cs)
    && if sa then Growth(segs, s, mid, cs) else mid == s
  }

  /** The record is as it was, or gone with nothing to keep, or replaced by one with its first `off` bytes. */
  ghost predicate TailKept(rec: ulong, was: seq<byte>, link: ulong, now: seq<byte>, off: nat, sure: bool) {
    || (link == rec && off != 0 && (sure || off + (SUBALLOC_BLOCK_SIZE - 1) >= |was| ==> now == was))
    || (link == EOF && off == 0)
    || (IsSuballoc(link) && off != 0 && off + (SUBALLOC_BLOCK_SIZE - 1) < |was| && SameStart(now, was, off, sure))
  }

  ghost function Replaced(used: set<ulong>, rec: ulong, link: ulong): set<ulong> {
    if link == rec then used else used - {rec} + if IsSuballoc(link) then {link} else {}
  }

  /** What truncation of file f to goal g did. */
  ghost predicate Truncated(segs: seq<Segment>, s: VolState, t: VolState, bytes: seq<seq<byte>>, f: File, g: Goal, o: Outcome) {
    && WellFormed(segs, s) && InTable(s.fat, f.cs) && o.n <= |f.cs|
    && Grown(segs, s, o.mid, f.cs, g.sa) && t == Cut(segs, o.mid, f.cs, o.n, o.link)
    && o.newHead == (if o.n == 0 then o.link else f.head)
    && o.code == (if Leaky(s.fat, f, g, o) then 0 else TailCode(f.tail, g.sa))
    && GoodCut(s.fat, bytes, f, g, o)
    && (!g.sa ==> o.n == Kept(s.fat, f.cs, g.fi, g.off) && o.link == if Below(s.fat, f.cs, g.fi, 0) == |f.cs| then f.tail else EOF)
  }

  /** The last cluster was the partial one and was kept whole: what follows it is not looked at. */
  ghost predicate Leaky(fat: Fat, f: File, g: Goal, o: Outcome)
    requires InTable(fat, f.cs)
  {
    o.n == |f.cs| && Below(fat, f.cs, g.fi, 0) < |f.cs|
  }

  /** The records in use afterwards: the old tail goes unless its cluster was the partial one kept whole. */
  ghost function UsedAfter(used: set<ulong>, dropped: set<ulong>, leaks: bool, tail: ulong, link: ulong): set<ulong> {
    if link == tail then used
    else used - (if leaks then {} else dropped) + if IsSuballoc(link) then {link} else {}
  }

  /** Cut at a cluster boundary. */
  lemma CutAtBoundary(segs: seq<Segment>, s: VolState, t: VolState, bytes: seq<seq<byte>>, f: File, g: Goal, o: Outcome,
                      used: set<ulong>, dropped: set<ulong>)
    requires WellFormed(segs, s) && InTable(s.fat, f.cs) && o.n == Below(s.fat, f.cs, g.fi, 0) < |f.cs|
    requires Index(s.fat, f.cs, o.n) > g.fi || g.off == 0
    requires o.mid == s && o.link == EOF && t == Cut(segs, s, f.cs, o.n, EOF)
    requires o.newHead == (if o.n == 0 then EOF else f.head) && o.code == TailCode(f.tail, g.sa)
    requires f.tail == EOF ==> dropped == {}
    ensures Truncated(segs, s, t, bytes, f, g, o)
    ensures used - dropped == UsedAfter(used, dropped, Leaky(s.fat, f, g, o), f.tail, EOF)
  {
    hide Cut, Below, Grows, Leads;
    GrowsNot(segs, s);
  }

  /** Nothing to cut. */
  lemma NothingCut(segs: seq<Segment>, s: VolState, bytes: seq<seq<byte>>, f: File, g: Goal, o: Outcome, p: nat, cluster: ulong,
                   used: set<ulong>, dropped: set<ulong>)
    requires WellFormed(segs, s) && Walking(s.fat, f.head, f.cs, f.tail, g.fi, p, cluster) && !Live(s.fat, cluster)
    requires o == Outcome(TailCode(f.tail, g.sa), f.head, |f.cs|, f.tail, f.rec, s)
    requires InTable(s.fat, f.cs) && !(AtTail(s.fat, f, g) && g.off == 0)
    ensures p == |f.cs| && cluster == f.tail && Below(s.fat, f.cs, g.fi, 0) == p
    ensures Truncated(segs, s, s, bytes, f, g, o)
    ensures used == UsedAfter(used, dropped, Leaky(s.fat, f, g, o), f.tail, f.tail)
  {
    hide Cut, Below, Grows, Leads;
    WalkingEnds(s.fat, f.head, f.cs, f.tail, g.fi, p, cluster);
    EndedAtTail(segs, s, f.head, f.cs, f.tail);
    GrowsNot(segs, s);
  }

  lemma TruncatesNothing(segs: seq<Segment>, s: VolState, bytes: seq<seq<byte>>, f: File, g: Goal, o: Outcome, used: set<ulong>, dropped: set<ulong>)
    requires WellFormed(segs, s) && IsMarker(f.head) && f.cs == [] && f.tail == f.head && !(g.sa && IsSuballoc(f.head) && g.fi == 0)
    requires o == Outcome(TailCode(f.tail, g.sa), f.head, 0, f.tail, f.rec, s)
    ensures Truncated(segs, s, s, bytes, f, g, o)
    ensures used == UsedAfter(used, dropped, Leaky(s.fat, f, g, o), f.tail, f.tail)
  {
    WalkingStarts(s.fat, f.head, [], f.tail, g.fi);
    NothingCut(segs, s, bytes, f, g, o, 0, f.head, used, dropped);
  }

  /** Cut inside the record at the end. */
  lemma TailCut(segs: seq<Segment>, s: VolState, t: VolState, bytes: seq<seq<byte>>, f: File, g: Goal, o: Outcome, used: set<ulong>)
    requires WellFormed(segs, s) && InTable(s.fat, f.cs) && Below(s.fat, f.cs, g.fi, 0) == |f.cs| && TailIndex(s.fat, f.cs) == g.fi
    requires g.sa && Growth(segs, s, o.mid, f.cs) && InBits(o.mid, f.cs) && IsSuballoc(f.tail) && t == Ended(o.mid, f.cs, |f.cs|, o.link)
    requires o.code == 0 && o.n == |f.cs| && o.newHead == (if f.cs == [] then o.link else f.head)
    requires TailKept(f.tail, f.rec, o.link, o.newRec, g.off, g.sure)
    ensures Truncated(segs, s, t, bytes, f, g, o)
    ensures Replaced(used, f.tail, o.link) == UsedAfter(used, {f.tail}, Leaky(s.fat, f, g, o), f.tail, o.link)
  {
    hide Cut, Below, Ended, Leads;
    CutAtEnd(segs, o.mid, f.cs, o.link);
  }

  /** How the walk sees a hole. */
  lemma HoleSeen(fat: Fat, cs: seq<ulong>, p: nat, prevIndex: nat)
    requires InTable(fat, cs) && p < |cs| && (p > 0 ==> prevIndex == Index(fat, cs, p - 1))
    ensures AfterHole(fat, cs, p) <==> Index(fat, cs, p) != if p == 0 then 0 else prevIndex + 1
  {
  }

  /** A record in place of the partial cluster. */
  lemma RecordCut(segs: seq<Segment>, s: VolState, t: VolState, bytes: seq<seq<byte>>, f: File, g: Goal, o: Outcome, p: nat,
                  used: set<ulong>, dropped: set<ulong>)
    requires WellFormed(segs, s) && PartialAt(s.fat, f, g, p) && !AfterHole(s.fat, f.cs, p)
    requires g.sa && Grown(segs, s, o.mid, f.cs, g.sa) && o.n == p && t == Cut(segs, o.mid, f.cs, o.n, o.link)
    requires o.newHead == (if o.n == 0 then o.link else f.head) && o.code == TailCode(f.tail, g.sa)
    requires IsSuballoc(o.link) && o.link != f.tail && g.off + (SUBALLOC_BLOCK_SIZE - 1) < g.clusterSize
    requires f.cs[p] < |bytes| && SameStart(o.newRec, bytes[f.cs[p]], g.off, g.sure)
    ensures Truncated(segs, s, t, bytes, f, g, o)
    ensures UsedAfter(used, dropped, Leaky(s.fat, f, g, o), f.tail, o.link) == used - dropped + {o.link}
  {
    hide Cut, Below, Growth, SameStart;
  }

  /** The partial cluster kept whole. */
  lemma WholeCut(segs: seq<Segment>, s: VolState, t: VolState, bytes: seq<seq<byte>>, f: File, g: Goal, o: Outcome, p: nat,
                 used: set<ulong>, dropped: set<ulong>)
    requires WellFormed(segs, s) && PartialAt(s.fat, f, g, p)
    requires Grown(segs, s, o.mid, f.cs, g.sa) && o.n == p + 1 && o.link == EOF && t == Cut(segs, o.mid, f.cs, o.n, EOF)
    requires o.newHead == f.head && o.code == if p + 1 == |f.cs| then 0 else TailCode(f.tail, g.sa)
    requires f.tail == EOF ==> dropped == {}
    ensures Truncated(segs, s, t, bytes, f, g, o)
    ensures UsedAfter(used, dropped, Leaky(s.fat, f, g, o), f.tail, EOF) == used - if p + 1 == |f.cs| then {} else dropped
  {
    hide Cut, Below, Growth, SameStart;
  }

  // ---- what a caller sees ----------------------------------------------------

  /** The clusters of cs outside the FAT hold the same bytes. */
  ghost predicate SameBytesOf(lay: seq<MirrorLru>, cs: seq<ulong>, was: seq<seq<byte>>, now: seq<seq<byte>>) {
    |was| == |now| && forall c :: c in cs && c < |was| && OutsideFat(lay, c) ==> was[c] == now[c]
  }

  /** A file reads the same while its bytes stay. */
  lemma SameFile(lay: seq<MirrorLru>, fat: Fat, was: seq<seq<byte>>, now: seq<seq<byte>>, cs: seq<ulong>, tail: ulong,
                 rec: seq<byte>, i: nat, r: nat)
    requires InTable(fat, cs) && SameBytesOf(lay, cs, was, now) && forall j :: 0 <= j < |cs| ==> OutsideFat(lay, cs[j])
    ensures FileByte(fat, now, cs, tail, rec, i, r) == FileByte(fat, was, cs, tail, rec, i, r)
  {
    var j := Find(fat, cs, i, 0);
    if j < |cs| { assert OutsideFat(lay, cs[j]); }
  }

  /** Every byte before the cut still reads the same, through the new chain and the new bytes. */
  ghost predicate FileKept(s: VolState, t: VolState, was: seq<seq<byte>>, now: seq<seq<byte>>, f: File, g: Goal, o: Outcome)
    requires InTable(s.fat, f.cs) && |s.fat| == |t.fat| && o.n <= |f.cs|
  {
    forall i: nat, r: nat :: Before(i, r, g.fi, g.off) ==>
      FileByte(t.fat, now, f.cs[..o.n], o.link, o.newRec, i, r) == FileByte(s.fat, was, f.cs, f.tail, f.rec, i, r)
  }

  /** The state the cut works on has the file's chain, and is as sound as the state before. */
  lemma GrownKeeps(segs: seq<Segment>, s: VolState, mid: VolState, f: File, sa: bool)
    requires WellFormed(segs, s) && Grown(segs, s, mid, f.cs, sa) && Chain(s.fat, f.head, f.cs, f.tail) && (sa ==> f.tail >= |s.fat|)
    ensures Chain(mid.fat, f.head, f.cs, f.tail) && forall j :: 0 <= j < |f.cs| ==> f.cs[j] < |s.fat| && mid.fat[f.cs[j]] == s.fat[f.cs[j]]
    ensures Sound(segs, s) && SegmentsApart(segs) ==> Sound(segs, mid)
  {
    hide Sound, SegmentsApart, Leads, Walk;
    WalkLive(s.fat, f.head, f.cs, f.tail);
    if sa {
      ChainStays(s.fat, mid.fat, f.head, f.cs, f.tail);
      if Sound(segs, s) && SegmentsApart(segs) { GrowsSound(segs, s, mid); }
    }
  }

  /** The new chain, its indexes, and the bookkeeping. */
  lemma CutKeeps(segs: seq<Segment>, s: VolState, t: VolState, bytes: seq<seq<byte>>, f: File, g: Goal, o: Outcome)
    requires Truncated(segs, s, t, bytes, f, g, o) && Chain(s.fat, f.head, f.cs, f.tail) && (g.sa ==> f.tail >= |s.fat|)
    ensures |t.fat| == |s.fat| && InTable(s.fat, f.cs) && Chain(t.fat, o.newHead, f.cs[..o.n], o.link)
    ensures forall j :: 0 <= j < o.n ==> Index(t.fat, f.cs, j) == Index(s.fat, f.cs, j)
    ensures Sound(segs, s) && SegmentsApart(segs) ==> Sound(segs, t)
  {
    hide Cut, Ended, Below, Walk, HintsSound, Agrees, Growth, SameStart, SegmentsApart;
    GrownKeeps(segs, s, o.mid, f, g.sa);
    EndedAtTail(segs, o.mid, f.head, f.cs, f.tail);
    if o.n == |f.cs| && o.link == f.tail {
      assert f.cs[..o.n] == f.cs;
    } else {
      CutChain(segs, o.mid, f.head, f.cs, f.tail, o.n, o.link);
      if Sound(segs, s) && SegmentsApart(segs) { CutSound(segs, o.mid, f.head, f.cs, f.tail, o.n, o.link); }
    }
  }

  /** A truncation leaves a chain of the kept clusters, sound bookkeeping, and the file's first bytes. */
  lemma TruncationKeeps(segs: seq<Segment>, lay: seq<MirrorLru>, s: VolState, t: VolState, was: seq<seq<byte>>, now: seq<seq<byte>>,
                        f: File, g: Goal, o: Outcome)
    requires Truncated(segs, s, t, was, f, g, o) && Chain(s.fat, f.head, f.cs, f.tail) && (g.sa ==> f.tail >= |s.fat|)
    requires SameBytesOf(lay, f.cs, was, now)
    ensures |t.fat| == |s.fat| && InTable(s.fat, f.cs) && o.n <= |f.cs| && Chain(t.fat, o.newHead, f.cs[..o.n], o.link)
    ensures Sound(segs, s) && SegmentsApart(segs) ==> Sound(segs, t)
    ensures (g.sure || !UsesRecord(s.fat, f, g)) && Ascending(s.fat, f.cs) && (forall j :: 0 <= j < |f.cs| ==> OutsideFat(lay, f.cs[j])) ==>
      FileKept(s, t, was, now, f, g, o)
  {
    hide Cut, Below, Walk, Find, OutsideFat, FileByte, Before, Grown, SameStart, Sound, SegmentsApart, GoodCut, Chain, UsesRecord;
    CutKeeps(segs, s, t, was, f, g, o);
    if (g.sure || !UsesRecord(s.fat, f, g)) && Ascending(s.fat, f.cs) && forall j :: 0 <= j < |f.cs| ==> OutsideFat(lay, f.cs[j]) {
      forall i: nat, r: nat | Before(i, r, g.fi, g.off)
        ensures FileByte(t.fat, now, f.cs[..o.n], o.link, o.newRec, i, r) == FileByte(s.fat, was, f.cs, f.tail, f.rec, i, r)
      {
        SameFile(lay, t.fat, was, now, f.cs[..o.n], o.link, o.newRec, i, r);
        GoodCutKeepsBytes(s.fat, t.fat, was, f, g, o, i, r);
      }
    }
  }

  // ---- when a record pays ----------------------------------------------------

  /** Short enough for a record is what a smaller number of blocks can hold. */
  lemma SavesABlock(off: nat, size: nat)
    requires size % SUBALLOC_BLOCK_SIZE == 0
    ensures off + (SUBALLOC_BLOCK_SIZE - 1) < size <==> BinFor(off) * SUBALLOC_BLOCK_SIZE < size
  {
  }

  /** The partial cluster gives way to a record exactly where records are allowed, no hole comes before it, and the record is smaller than
      the cluster; the record at the end to another exactly where that one is smaller. */
  lemma RecordsSave(fat: Fat, f: File, g: Goal, p: nat)
    requires InTable(fat, f.cs) && g.clusterSize % SUBALLOC_BLOCK_SIZE == 0 && |f.rec| % SUBALLOC_BLOCK_SIZE == 0
    ensures PartialAt(fat, f, g, p) ==>
      (Converts(fat, f, g, p) <==>
        g.sa && Index(fat, f.cs, p) == (if p == 0 then 0 else Index(fat, f.cs, p - 1) + 1) && BinFor(g.off) * SUBALLOC_BLOCK_SIZE < g.clusterSize)
    ensures AtTail(fat, f, g) ==> (Shrinks(fat, f, g) <==> 0 < BinFor(g.off) * SUBALLOC_BLOCK_SIZE < |f.rec|)
  {
    hide Below, BinFor;
    SavesABlock(g.off, g.clusterSize);
    SavesABlock(g.off, |f.rec|);
    assert g.off != 0 <==> BinFor(g.off) > 0;
  }

  // ---- by file positions -----------------------------------------------------

  /** Every byte of the file below `size` still reads the same: byte r of index i is at position i * clusterSize + r. */
  ghost predicate BytesBelowKept(s: VolState, t: VolState, was: seq<seq<byte>>, now: seq<seq<byte>>, f: File, o: Outcome,
                                 clusterSize: nat, size: nat)
    requires InTable(s.fat, f.cs) && |s.fat| == |t.fat| && o.n <= |f.cs|
  {
    forall i: nat, r: nat :: r < clusterSize && i * clusterSize + r < size ==>
      FileByte(t.fat, now, f.cs[..o.n], o.link, o.newRec, i, r) == FileByte(s.fat, was, f.cs, f.tail, f.rec, i, r)
  }

  /** A cluster that begins at or past `size` is free; one that ends by then, or without records begins before, stays. */
  ghost predicate ClustersCutAt(s: VolState, t: VolState, cs: seq<ulong>, clusterSize: nat, size: nat, sa: bool)
    requires InTable(s.fat, cs) && |t.bits| == |t.fat| == |s.fat|
  {
    forall j :: 0 <= j < |cs| ==> var first := Index(s.fat, cs, j) * clusterSize;
      && (first >= size ==> t.fat[cs[j]] == FREE_ENTRY && !t.bits[cs[j]])
      && (first + clusterSize <= size || (!sa && first < size) ==> Index(t.fat, cs, j) == Index(s.fat, cs, j) && t.bits[cs[j]])
  }

  /** The goal is position `size`. */
  ghost predicate GoalIs(g: Goal, clusterSize: nat, size: nat) {
    g.fi * clusterSize + g.off == size && g.off < clusterSize
  }

  /** Positions below a size are those before its index and offset. */
  lemma PositionBefore(clusterSize: nat, size: nat, g: Goal, i: nat, r: nat)
    requires GoalIs(g, clusterSize, size) && r < clusterSize
    ensures i * clusterSize + r < size <==> Before(i, r, g.fi, g.off)
  {
    if i < g.fi { MulStep(i, g.fi, clusterSize); } else if g.fi < i { MulStep(g.fi, i, clusterSize); }
  }

  lemma MulStep(a: nat, b: nat, c: nat)
    requires a < b
    ensures a * c + c <= b * c
  {
    assert (b - a) * c == b * c - a * c;
    assert (b - a - 1) * c >= 0;
  }

  /** Where a cluster of index i lies with respect to a size. */
  lemma ClusterBefore(clusterSize: nat, size: nat, g: Goal, i: nat)
    requires GoalIs(g, clusterSize, size)
    ensures i * clusterSize >= size <==> i > g.fi || (i == g.fi && g.off == 0)
    ensures i * clusterSize + clusterSize <= size <==> i < g.fi
  {
    if i < g.fi { MulStep(i, g.fi, clusterSize); } else if g.fi < i { MulStep(g.fi, i, clusterSize); }
  }

  lemma KeptByPosition(s: VolState, t: VolState, was: seq<seq<byte>>, now: seq<seq<byte>>, f: File, g: Goal, o: Outcome, clusterSize: nat, size: nat)
    requires InTable(s.fat, f.cs) && |s.fat| == |t.fat| && o.n <= |f.cs| && FileKept(s, t, was, now, f, g, o) && GoalIs(g, clusterSize, size)
    ensures BytesBelowKept(s, t, was, now, f, o, clusterSize, size)
  {
    hide FileByte, Before, GoalIs;
    forall i: nat, r: nat | r < clusterSize && i * clusterSize + r < size
      ensures FileByte(t.fat, now, f.cs[..o.n], o.link, o.newRec, i, r) == FileByte(s.fat, was, f.cs, f.tail, f.rec, i, r)
    {
      PositionBefore(clusterSize, size, g, i, r);
    }
  }

  /** Allocations and relinks leave allocated clusters allocated. */
  lemma {:induction false} LeadsKeepsBits(segs: seq<Segment>, s: VolState, ops: seq<Op>, t: VolState, c: ulong)
    requires WellFormed(segs, s) && Leads(segs, s, ops, t) && NoFrees(ops) && c < |s.bits| && s.bits[c]
    ensures |t.bits| == |s.bits| && t.bits[c]
    decreases ops
  {
    hide Picked;
    if ops != [] {
      assert !ops[0].Free?;
      assert forall k :: 0 <= k < |ops[1..]| ==> ops[1..][k] == ops[k + 1];
      LeadsKeepsBits(segs, Apply(segs, s, ops[0]), ops[1..], t, c);
    }
  }

  lemma GrownKeepsBits(segs: seq<Segment>, s: VolState, mid: VolState, cs: seq<ulong>, sa: bool)
    requires WellFormed(segs, s) && Grown(segs, s, mid, cs, sa)
    ensures forall c: ulong :: c < |s.bits| && s.bits[c] ==> c < |mid.bits| && mid.bits[c]
  {
    hide Leads;
    if sa {
      var ops :| Leads(segs, s, ops, mid) && NoFrees(ops);
      forall c: ulong | c < |s.bits| && s.bits[c] ensures c < |mid.bits| && mid.bits[c] { LeadsKeepsBits(segs, s, ops, mid, c); }
    }
  }

  /** How many clusters are kept, between those wholly below the cut and those at all below it. */
  lemma KeptBetween(fat: Fat, bytes: seq<seq<byte>>, f: File, g: Goal, o: Outcome)
    requires InTable(fat, f.cs) && GoodCut(fat, bytes, f, g, o)
    ensures Below(fat, f.cs, g.fi, 0) <= o.n <= Kept(fat, f.cs, g.fi, g.off)
  {
    hide Below;
  }

  /** The clusters of a file whose indexes ascend, one by one. */
  lemma ClustersByPosition(segs: seq<Segment>, s: VolState, t: VolState, bytes: seq<seq<byte>>, f: File, g: Goal, o: Outcome, clusterSize: nat, size: nat)
    requires Truncated(segs, s, t, bytes, f, g, o) && Chain(s.fat, f.head, f.cs, f.tail) && (g.sa ==> f.tail >= |s.fat|)
    requires GoalIs(g, clusterSize, size)
    requires Ascending(s.fat, f.cs) && forall c :: c in f.cs && c < |s.bits| ==> s.bits[c]
    ensures |t.bits| == |t.fat| == |s.fat| && ClustersCutAt(s, t, f.cs, clusterSize, size, g.sa)
  {
    hide Cut, Below, Kept, Walk, Growth, GoodCut, HintsSound, Agrees, SegmentsApart;
    CutKeeps(segs, s, t, bytes, f, g, o);
    GrownKeeps(segs, s, o.mid, f, g.sa);
    GrownKeepsBits(segs, s, o.mid, f.cs, g.sa);
    CutFrame(segs, o.mid, f.head, f.cs, f.tail, o.n, o.link);
    KeptBetween(s.fat, bytes, f, g, o);
    forall j | 0 <= j < |f.cs|
      ensures var first := Index(s.fat, f.cs, j) * clusterSize;
        && (first >= size ==> t.fat[f.cs[j]] == FREE_ENTRY && !t.bits[f.cs[j]])
        && (first + clusterSize <= size || (!g.sa && first < size) ==> Index(t.fat, f.cs, j) == Index(s.fat, f.cs, j) && t.bits[f.cs[j]])
    {
      ClusterBefore(clusterSize, size, g, Index(s.fat, f.cs, j));
      KeptByIndex(s.fat, f.cs, g.fi, g.off, j);
      KeptByIndex(s.fat, f.cs, g.fi, 0, j);
      KeptAtBoundary(s.fat, f.cs, g.fi);
    }
  }

  /** What a truncation to `size` keeps, by positions. */
  lemma PositionsKept(segs: seq<Segment>, s: VolState, t: VolState, was: seq<seq<byte>>, now: seq<seq<byte>>, f: File, g: Goal, o: Outcome,
                      clusterSize: nat, size: nat)
    requires Truncated(segs, s, t, was, f, g, o) && Chain(s.fat, f.head, f.cs, f.tail) && (g.sa ==> f.tail >= |s.fat|) && GoalIs(g, clusterSize, size)
    requires |t.fat| == |s.fat| && InTable(s.fat, f.cs) && o.n <= |f.cs|
    ensures |t.bits| == |t.fat|
    ensures Ascending(s.fat, f.cs) && (forall c :: c in f.cs && c < |s.bits| ==> s.bits[c]) ==> ClustersCutAt(s, t, f.cs, clusterSize, size, g.sa)
    ensures FileKept(s, t, was, now, f, g, o) ==> BytesBelowKept(s, t, was, now, f, o, clusterSize, size)
  {
    hide Truncated, Ascending, ClustersCutAt, BytesBelowKept, FileKept, Chain, GoalIs;
    TruncatedFits(segs, s, t, was, f, g, o);
    if Ascending(s.fat, f.cs) && forall c :: c in f.cs && c < |s.bits| ==> s.bits[c] {
      ClustersByPosition(segs, s, t, was, f, g, o, clusterSize, size);
    }
    if FileKept(s, t, was, now, f, g, o) { KeptByPosition(s, t, was, now, f, g, o, clusterSize, size); }
  }

  lemma TruncatedFits(segs: seq<Segment>, s: VolState, t: VolState, bytes: seq<seq<byte>>, f: File, g: Goal, o: Outcome)
    requires Truncated(segs, s, t, bytes, f, g, o)
    ensures |t.bits| == |t.fat|
  {
    hide Cut, Grown, GoodCut;
  }

  lemma KeptAtBoundary(fat: Fat, cs: seq<ulong>, fi: nat)
    requires InTable(fat, cs)
    ensures Kept(fat, cs, fi, 0) == Below(fat, cs, fi, 0)
  {
  }

  // ---- a record that is lost -------------------------------------------------

  /** The record that ended the chain stays in use though nothing leads to it. */
  ghost predicate Loses(used: set<ulong>, fat: Fat, f: File, g: Goal, o: Outcome)
    requires InTable(fat, f.cs)
  {
    f.tail in UsedAfter(used, {f.tail}, Leaky(fat, f, g, o), f.tail, o.link) && o.link != f.tail
  }

  /** The cut lies inside the last cluster before the record. */
  ghost predicate InLast(fat: Fat, f: File, g: Goal)
    requires InTable(fat, f.cs)
  {
    f.cs != [] && Index(fat, f.cs, |f.cs| - 1) == g.fi && g.off != 0
  }

  /** No new record can stand for the last cluster: a hole comes before it, or the record would be no smaller. */
  ghost predicate NoRecord(fat: Fat, f: File, g: Goal)
    requires InTable(fat, f.cs) && f.cs != []
  {
    AfterHole(fat, f.cs, |f.cs| - 1) || g.off + (SUBALLOC_BLOCK_SIZE - 1) >= g.clusterSize
  }

  /** A file on a volume whose clusters are all of one size. */
  ghost predicate OnVolume(segs: seq<Segment>, s: VolState, bytes: seq<seq<byte>>, f: File, g: Goal)
    ensures OnVolume(segs, s, bytes, f, g) ==> InTable(s.fat, f.cs)
  {
    && WellFormed(segs, s) && Chain(s.fat, f.head, f.cs, f.tail) && (g.sa ==> f.tail >= |s.fat|)
    && InTable(s.fat, f.cs) && Ascending(s.fat, f.cs)
    && g.off < g.clusterSize && |bytes| == |s.fat| && forall c :: 0 <= c < |bytes| ==> |bytes[c]| == g.clusterSize
  }

  /** It ends in a record, and records are allowed. */
  ghost predicate WithRecord(segs: seq<Segment>, s: VolState, bytes: seq<seq<byte>>, f: File, g: Goal)
    ensures WithRecord(segs, s, bytes, f, g) ==> InTable(s.fat, f.cs) && IsSuballoc(f.tail)
  {
    OnVolume(segs, s, bytes, f, g) && g.sa && IsSuballoc(f.tail)
  }

  /** Which outcomes lose it. */
  lemma LosesWhen(segs: seq<Segment>, s: VolState, t: VolState, bytes: seq<seq<byte>>, f: File, g: Goal, o: Outcome, used: set<ulong>)
    requires WithRecord(segs, s, bytes, f, g) && f.tail in used && Truncated(segs, s, t, bytes, f, g, o)
    ensures Loses(used, s.fat, f, g, o) ==> InLast(s.fat, f, g)
    ensures InLast(s.fat, f, g) && NoRecord(s.fat, f, g) ==> Loses(used, s.fat, f, g, o)
  {
    hide Cut, WellFormed, Grown, SameStart, Walk;
    if f.cs != [] {
      var p := Below(s.fat, f.cs, g.fi, 0);
      assert Index(s.fat, f.cs, |f.cs| - 1) == g.fi ==> p == |f.cs| - 1;
    }
  }

  /** Keeping the partial cluster whole is always possible. */
  lemma WholeOutcome(segs: seq<Segment>, s: VolState, bytes: seq<seq<byte>>, f: File, g: Goal, p: nat) returns (t: VolState, o: Outcome)
    requires WithRecord(segs, s, bytes, f, g) && PartialAt(s.fat, f, g, p)
    ensures Truncated(segs, s, t, bytes, f, g, o) && o.n == p + 1 && o.link == EOF
  {
    hide Cut, Below, Truncated, Walk, Ascending, Leads;
    t := Cut(segs, s, f.cs, p + 1, EOF);
    o := Outcome(if p + 1 == |f.cs| then 0 else TailCode(f.tail, g.sa), f.head, p + 1, EOF, [], s);
    GrowsNot(segs, s);
    WholeCut(segs, s, t, bytes, f, g, o, p, {}, {});
  }

  /** An outcome that does not lose the record, unless it must. */
  lemma SafeOutcome(segs: seq<Segment>, s: VolState, bytes: seq<seq<byte>>, f: File, g: Goal, used: set<ulong>) returns (t: VolState, o: Outcome)
    requires WithRecord(segs, s, bytes, f, g) && !(InLast(s.fat, f, g) && NoRecord(s.fat, f, g))
    ensures Truncated(segs, s, t, bytes, f, g, o) && !Loses(used, s.fat, f, g, o)
  {
    hide Cut, Truncated, Walk, Ascending, Leads;
    var p := Below(s.fat, f.cs, g.fi, 0);
    GrowsNot(segs, s);
    if p == |f.cs| && AtTail(s.fat, f, g) && g.off == 0 {
      t, o := Ended(s, f.cs, p, EOF), Outcome(0, if p == 0 then EOF else f.head, p, EOF, [], s);
      TailCut(segs, s, t, bytes, f, g, o, {});
    } else if p == |f.cs| {
      t, o := s, Outcome(TailCode(f.tail, g.sa), f.head, p, f.tail, f.rec, s);
      NothingCut(segs, s, bytes, f, g, o, p, f.tail, {}, {});
    } else if !PartialAt(s.fat, f, g, p) {
      t := Cut(segs, s, f.cs, p, EOF);
      o := Outcome(TailCode(f.tail, g.sa), if p == 0 then EOF else f.head, p, EOF, [], s);
      CutAtBoundary(segs, s, t, bytes, f, g, o, {}, {});
    } else if p + 1 < |f.cs| {
      t, o := WholeOutcome(segs, s, bytes, f, g, p);
    } else {
      var link := if f.tail == Record(1, 0) then Record(1, 1) else Record(1, 0);
      t := Cut(segs, s, f.cs, p, link);
      o := Outcome(TailCode(f.tail, g.sa), if p == 0 then link else f.head, p, link, bytes[f.cs[p]], s);
      RecordCut(segs, s, t, bytes, f, g, o, p, {}, {});
    }
  }

  lemma LastIsPartial(segs: seq<Segment>, s: VolState, bytes: seq<seq<byte>>, f: File, g: Goal)
    requires WithRecord(segs, s, bytes, f, g) && InLast(s.fat, f, g)
    ensures PartialAt(s.fat, f, g, |f.cs| - 1)
  {
    hide Walk;
    assert Index(s.fat, f.cs, |f.cs| - 1) == g.fi;
  }

  /** No outcome loses the record exactly when the cut is not inside the last cluster; every outcome loses it exactly when it is,
      and that cluster comes after a hole or its part is too long for a smaller record. */
  lemma TailLeaks(segs: seq<Segment>, s: VolState, bytes: seq<seq<byte>>, f: File, g: Goal, used: set<ulong>)
    requires WithRecord(segs, s, bytes, f, g) && f.tail in used
    ensures (forall t, o :: Truncated(segs, s, t, bytes, f, g, o) ==> !Loses(used, s.fat, f, g, o)) <==> !InLast(s.fat, f, g)
    ensures (forall t, o :: Truncated(segs, s, t, bytes, f, g, o) ==> Loses(used, s.fat, f, g, o)) <==>
      InLast(s.fat, f, g) && NoRecord(s.fat, f, g)
  {
    hide WithRecord, Truncated, AfterHole, Below;
    forall t, o | Truncated(segs, s, t, bytes, f, g, o)
      ensures Loses(used, s.fat, f, g, o) ==> InLast(s.fat, f, g)
      ensures InLast(s.fat, f, g) && NoRecord(s.fat, f, g) ==> Loses(used, s.fat, f, g, o)
    {
      LosesWhen(segs, s, t, bytes, f, g, o, used);
    }
    if InLast(s.fat, f, g) {
      LastIsPartial(segs, s, bytes, f, g);
      var t, o := WholeOutcome(segs, s, bytes, f, g, |f.cs| - 1);
      assert Loses(used, s.fat, f, g, o);
    }
    if !(InLast(s.fat, f, g) && NoRecord(s.fat, f, g)) {
      var t, o := SafeOutcome(segs, s, bytes, f, g, used);
    }
  }

  /** One cluster of 4096 bytes and a record of 512: cut to 3585 bytes, the record is lost whatever happens. */
  lemma LeakingCut(rec: seq<byte>) returns (segs: seq<Segment>, s: VolState, bytes: seq<seq<byte>>, f: File, g: Goal)
    ensures f == File(1, [1], Record(1, 0), rec) && g == Goal(0, 3585, true, true, 4096)
    ensures Sound(segs, s) && SegmentsApart(segs) && WithRecord(segs, s, bytes, f, g)
    ensures exists t, o :: Truncated(segs, s, t, bytes, f, g, o)
    ensures forall t, o :: Truncated(segs, s, t, bytes, f, g, o) ==> Loses({f.tail}, s.fat, f, g, o)
  {
    hide Truncated, Bin, Number;
    var tail := Record(1, 0);
    segs := [Segment(0, 2)];
    s := VolState([FREE_ENTRY, FatEntry(0, tail)], [false, true], 1, 1, [0], 0);
    bytes := seq(2, _ => seq(4096, _ => 0));
    f, g := File(1, [1], tail, rec), Goal(0, 3585, true, true, 4096);
    assert CountSet([false, true]) == 1 by { assert [false, true][..1] == [false]; }
    assert Walk(s.fat, 1, [1], tail) by { assert [1][1..] == []; }
    TailLeaks(segs, s, bytes, f, g, {tail});
    var t, o := WholeOutcome(segs, s, bytes, f, g, 0);
  }

  // ---- bytes that are lost ---------------------------------------------------

  lemma FirstByteDiffers(s: VolState, t: VolState, bytes: seq<seq<byte>>, f: File, g: Goal, o: Outcome, was: seq<byte>)
    requires InTable(s.fat, f.cs) && Ascending(s.fat, f.cs) && UsesRecord(s.fat, f, g) && |t.fat| == |s.fat| && o.n == Below(s.fat, f.cs, g.fi, 0)
    requires forall j :: 0 <= j < o.n ==> Index(t.fat, f.cs, j) == Index(s.fat, f.cs, j)
    requires if o.n < |f.cs| then f.cs[o.n] < |bytes| && was == bytes[f.cs[o.n]] else was == f.rec
    requires IsSuballoc(o.link) && |o.newRec| == |was| > 0 && o.newRec[0] != was[0]
    ensures !FileKept(s, t, bytes, bytes, f, g, o)
  {
    hide Find;
    FindKept(s.fat, t.fat, f.cs, o.n, g.fi);
    assert f.cs[..|f.cs|] == f.cs;
    assert Before(g.fi, 0, g.fi, g.off);
    assert FileByte(t.fat, bytes, f.cs[..o.n], o.link, o.newRec, g.fi, 0) == o.newRec[0];
    assert FileByte(s.fat, bytes, f.cs, f.tail, f.rec, g.fi, 0) == was[0];
  }

  /** Some outcome changes a byte before the cut: the record read or written with an error holds another. */
  lemma BadRecord(segs: seq<Segment>, s: VolState, bytes: seq<seq<byte>>, f: File, g: Goal) returns (t: VolState, o: Outcome)
    requires OnVolume(segs, s, bytes, f, g) && !g.sure && UsesRecord(s.fat, f, g)
    ensures Truncated(segs, s, t, bytes, f, g, o) && o.n <= |f.cs| && |t.fat| == |s.fat| && !FileKept(s, t, bytes, bytes, f, g, o)
  {
    hide Cut, Truncated, Walk, Leads, Ended, Find;
    var p, link := Below(s.fat, f.cs, g.fi, 0), if f.tail == Record(1, 0) then Record(1, 1) else Record(1, 0);
    GrowsNot(segs, s);
    var was := if p < |f.cs| then bytes[f.cs[p]] else f.rec;
    var newRec := was[0 := if was[0] == 0 then 1 else 0];
    o := Outcome(if p < |f.cs| then TailCode(f.tail, g.sa) else 0, if p == 0 then link else f.head, p, link, newRec, s);
    if p < |f.cs| {
      t := Cut(segs, s, f.cs, p, link);
      RecordCut(segs, s, t, bytes, f, g, o, p, {}, {});
    } else {
      t := Ended(s, f.cs, p, link);
      TailCut(segs, s, t, bytes, f, g, o, {});
    }
    CutKeeps(segs, s, t, bytes, f, g, o);
    FirstByteDiffers(s, t, bytes, f, g, o, was);
  }

  /** Every outcome keeps the file's first bytes exactly when no record is read or written, or none with an error. */
  lemma BytesKeptWhen(segs: seq<Segment>, s: VolState, bytes: seq<seq<byte>>, f: File, g: Goal)
    requires OnVolume(segs, s, bytes, f, g)
    ensures (forall t, o :: Truncated(segs, s, t, bytes, f, g, o) ==> |t.fat| == |s.fat| && o.n <= |f.cs| && FileKept(s, t, bytes, bytes, f, g, o))
      <==> g.sure || !UsesRecord(s.fat, f, g)
  {
    hide Truncated, FileKept, UsesRecord;
    if g.sure || !UsesRecord(s.fat, f, g) {
      forall t, o | Truncated(segs, s, t, bytes, f, g, o)
        ensures |t.fat| == |s.fat| && o.n <= |f.cs| && FileKept(s, t, bytes, bytes, f, g, o)
      {
        TruncationKeeps(segs, [], s, t, bytes, bytes, f, g, o);
      }
    } else {
      var t, o := BadRecord(segs, s, bytes, f, g);
    }
  }
}
