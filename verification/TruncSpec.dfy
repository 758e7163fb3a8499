/** What cutting a chain short means: for the FAT, for the volume's bookkeeping, and for the file's bytes. */
module TruncSpec {
  import opened Words
  import opened FatTables
  import opened Chains
  import opened VolumeStates
  import opened Suballoc

  /** The file index of the j-th cluster. */
  ghost function Index(fat: Fat, cs: seq<ulong>, j: nat): ulong
    requires j < |cs| && cs[j] < |fat|
  {
    fat[cs[j]].FATIndex
  }

  ghost predicate InTable(fat: Fat, cs: seq<ulong>) {
    forall j :: 0 <= j < |cs| ==> cs[j] < |fat|
  }

  ghost predicate Ascending(fat: Fat, cs: seq<ulong>)
    requires InTable(fat, cs)
  {
    forall i, j :: 0 <= i < j < |cs| ==> Index(fat, cs, i) < Index(fat, cs, j)
  }

  /** How many leading clusters have an index below fi. */
  ghost function Below(fat: Fat, cs: seq<ulong>, fi: nat, from: nat): (r: nat)
    requires InTable(fat, cs) && from <= |cs|
    ensures from <= r <= |cs| && (r < |cs| ==> Index(fat, cs, r) >= fi)
    ensures forall j :: from <= j < r ==> Index(fat, cs, j) < fi
    decreases |cs| - from
  {
    if from == |cs| || Index(fat, cs, from) >= fi then from else Below(fat, cs, fi, from + 1)
  }

  /** How many leading clusters a cut at index fi, offset off keeps when the partial one is kept whole. */
  ghost function Kept(fat: Fat, cs: seq<ulong>, fi: nat, off: nat): (n: nat)
    requires InTable(fat, cs)
    ensures n <= |cs|
  {
    var p := Below(fat, cs, fi, 0);
    if p < |cs| && Index(fat, cs, p) == fi && off != 0 then p + 1 else p
  }

  /** On an ascending chain exactly the clusters with index below fi, or at fi for a remainder, are kept. */
  lemma KeptByIndex(fat: Fat, cs: seq<ulong>, fi: nat, off: nat, j: nat)
    requires InTable(fat, cs) && Ascending(fat, cs) && j < |cs|
    ensures j < Kept(fat, cs, fi, off) <==> Index(fat, cs, j) < fi || (Index(fat, cs, j) == fi && off != 0)
  {
  }

  // ---- the bookkeeping ------------------------------------------------------

  ghost predicate InBits(s: VolState, cs: seq<ulong>) {
    forall j :: 0 <= j < |cs| ==> cs[j] < |s.bits|
  }

  /** Clusters freed one after the other. */
  ghost function FreedAll(segs: seq<Segment>, s: VolState, cs: seq<ulong>): (r: VolState)
    requires WellFormed(segs, s) && InBits(s, cs)
    ensures WellFormed(segs, r) && |r.bits| == |s.bits|
    decreases cs
  {
    if cs == [] then s else FreedAll(segs, Freed(segs, s, cs[0]), cs[1..])
  }

  /** Cluster n - 1 becomes the last, linked to `link`. */
  ghost function Ended(s: VolState, cs: seq<ulong>, n: nat, link: ulong): VolState
    requires |s.fat| == |s.bits| && InBits(s, cs) && n <= |cs|
  {
    if n == 0 then s else Relinked(s, cs[n - 1], s.fat[cs[n - 1]].(FATCluster := link))
  }

  /** The chain ends after n clusters; the clusters from n on are freed. */
  ghost function Cut(segs: seq<Segment>, s: VolState, cs: seq<ulong>, n: nat, link: ulong): (r: VolState)
    requires WellFormed(segs, s) && InBits(s, cs) && n <= |cs|
    ensures WellFormed(segs, r) && |r.bits| == |s.bits|
  {
    FreedAll(segs, Ended(s, cs, n, link), cs[n..])
  }

  lemma {:induction false} FreedAllAt(segs: seq<Segment>, s: VolState, cs: seq<ulong>, c: ulong)
    requires WellFormed(segs, s) && InBits(s, cs) && c < |s.bits|
    ensures var r := FreedAll(segs, s, cs);
      && r.fat[c] == (if c in cs then FREE_ENTRY else s.fat[c])
      && r.bits[c] == (c !in cs && s.bits[c])
      && r.nfree == s.nfree + |cs|
    decreases cs
  {
    hide Lowered;
    if cs != [] { FreedAllAt(segs, Freed(segs, s, cs[0]), cs[1..], c); }
  }

  lemma {:induction false} FreedAllSound(segs: seq<Segment>, s: VolState, cs: seq<ulong>)
    requires Sound(segs, s) && SegmentsApart(segs) && InBits(s, cs) && NoDup(cs)
    requires forall j :: 0 <= j < |cs| ==> s.bits[cs[j]]
    ensures Sound(segs, FreedAll(segs, s, cs))
    decreases cs
  {
    if cs != [] {
      FreeSound(segs, s, cs[0]);
      var rest := cs[1..];
      assert forall j :: 0 <= j < |rest| ==> rest[j] == cs[j + 1] && rest[j] != cs[0];
      FreedAllSound(segs, Freed(segs, s, cs[0]), rest);
    }
  }

  /** A cut keeps bitmap, FAT, counters and hints in step. */
  lemma CutSound(segs: seq<Segment>, s: VolState, head: ulong, cs: seq<ulong>, tail: ulong, n: nat, link: ulong)
    requires Sound(segs, s) && SegmentsApart(segs) && Chain(s.fat, head, cs, tail) && InBits(s, cs) && n <= |cs| && link != 0
    ensures Sound(segs, Cut(segs, s, cs, n, link))
  {
    hide Lowered, HintsSound;
    WalkLive(s.fat, head, cs, tail);
    ChainAcyclic(s.fat, head, cs, tail);
    var t := Ended(s, cs, n, link);
    if n > 0 { RelinkSound(segs, s, cs[n - 1], s.fat[cs[n - 1]].(FATCluster := link)); }
    var rest := cs[n..];
    assert forall j :: 0 <= j < |rest| ==> rest[j] == cs[n + j];
    FreedAllSound(segs, t, rest);
  }

  lemma {:induction false} FreesAreARun(segs: seq<Segment>, s: VolState, cs: seq<ulong>) returns (ops: seq<Op>)
    requires WellFormed(segs, s) && InBits(s, cs) && NoDup(cs) && forall j :: 0 <= j < |cs| ==> s.bits[cs[j]]
    ensures Leads(segs, s, ops, FreedAll(segs, s, cs))
    decreases cs
  {
    hide Lowered;
    ops := [];
    if cs != [] {
      var rest := cs[1..];
      assert forall j :: 0 <= j < |rest| ==> rest[j] == cs[j + 1] && rest[j] != cs[0];
      var more := FreesAreARun(segs, Freed(segs, s, cs[0]), rest);
      ops := [Free(cs[0])] + more;
      assert ops[1..] == more;
    }
  }

  /** A truncation is a run of one relink and then frees, each of an allocated cluster. */
  lemma CutIsARun(segs: seq<Segment>, s: VolState, head: ulong, cs: seq<ulong>, tail: ulong, n: nat, link: ulong) returns (ops: seq<Op>)
    requires Sound(segs, s) && Chain(s.fat, head, cs, tail) && InBits(s, cs) && n <= |cs| && link != 0
    ensures Leads(segs, s, ops, Cut(segs, s, cs, n, link))
  {
    hide Lowered, HintsSound;
    WalkLive(s.fat, head, cs, tail);
    ChainAcyclic(s.fat, head, cs, tail);
    var rest := cs[n..];
    assert forall j :: 0 <= j < |rest| ==> rest[j] == cs[n + j];
    ops := FreesAreARun(segs, Ended(s, cs, n, link), rest);
    if n > 0 {
      var first, more := Relink(cs[n - 1], s.fat[cs[n - 1]].(FATCluster := link)), ops;
      ops := [first] + more;
      assert ops[1..] == more;
    }
  }

  /** A cut, cluster by cluster. */
  lemma CutAt(segs: seq<Segment>, s: VolState, cs: seq<ulong>, n: nat, link: ulong, c: ulong)
    requires WellFormed(segs, s) && InBits(s, cs) && NoDup(cs) && n <= |cs| && c < |s.bits|
    ensures var r := Cut(segs, s, cs, n, link);
      && r.fat[c] == (if c in cs[n..] then FREE_ENTRY else if n > 0 && c == cs[n - 1] then s.fat[c].(FATCluster := link) else s.fat[c])
      && r.bits[c] == (c !in cs[n..] && s.bits[c])
      && r.nfree == s.nfree + |cs| - n
  {
    var t := Ended(s, cs, n, link);
    FreedAllAt(segs, t, cs[n..], c);
  }

  /** After a cut the head leads through the kept clusters to the new end. */
  lemma CutChain(segs: seq<Segment>, s: VolState, head: ulong, cs: seq<ulong>, tail: ulong, n: nat, link: ulong)
    requires WellFormed(segs, s) && Chain(s.fat, head, cs, tail) && InBits(s, cs) && n <= |cs| && IsMarker(link)
    ensures var r := Cut(segs, s, cs, n, link);
      && Chain(r.fat, if n == 0 then link else head, cs[..n], link)
      && (forall j :: 0 <= j < n ==> Index(r.fat, cs, j) == Index(s.fat, cs, j))
  {
    ChainAcyclic(s.fat, head, cs, tail);
    var r := Cut(segs, s, cs, n, link);
    if n > 0 {
      var last, front := cs[n - 1], cs[..n - 1];
      WalkSplit(s.fat, head, cs, tail, n - 1);
      forall j | 0 <= j < n
        ensures r.fat[cs[j]] == if j == n - 1 then s.fat[last].(FATCluster := link) else s.fat[cs[j]]
      {
        CutAt(segs, s, cs, n, link, cs[j]);
      }
      hide Cut, WellFormed;
      WalkFrame(s.fat, r.fat, head, front, last);
      WalkStep(r.fat, head, front, last);
      assert front + [last] == cs[..n];
    }
  }

  /** What a cut leaves alone, and what it frees. */
  lemma CutFrame(segs: seq<Segment>, s: VolState, head: ulong, cs: seq<ulong>, tail: ulong, n: nat, link: ulong)
    requires WellFormed(segs, s) && Chain(s.fat, head, cs, tail) && InBits(s, cs) && n <= |cs|
    ensures var r := Cut(segs, s, cs, n, link);
      && (forall j :: n <= j < |cs| ==> r.fat[cs[j]] == FREE_ENTRY && !r.bits[cs[j]])
      && (forall j :: 0 <= j < n ==> r.bits[cs[j]] == s.bits[cs[j]])
      && (forall c: ulong :: c < |s.bits| && c !in cs ==> r.fat[c] == s.fat[c] && r.bits[c] == s.bits[c])
  {
    ChainAcyclic(s.fat, head, cs, tail);
    var r := Cut(segs, s, cs, n, link);
    forall j | 0 <= j < |cs|
      ensures if j < n then r.bits[cs[j]] == s.bits[cs[j]] else r.fat[cs[j]] == FREE_ENTRY && !r.bits[cs[j]]
    {
      CutAt(segs, s, cs, n, link, cs[j]);
      if j >= n { assert cs[j] == cs[n..][j - n]; }
    }
    forall c: ulong | c < |s.bits| && c !in cs ensures r.fat[c] == s.fat[c] && r.bits[c] == s.bits[c] {
      CutAt(segs, s, cs, n, link, c);
    }
  }

  // ---- the file's bytes -----------------------------------------------------

  /** The first position of index i in the chain; |cs| if the file has a hole there. */
  ghost function Find(fat: Fat, cs: seq<ulong>, i: nat, from: nat): (j: nat)
    requires InTable(fat, cs) && from <= |cs|
    ensures from <= j <= |cs| && (j < |cs| ==> Index(fat, cs, j) == i)
    ensures forall k :: from <= k < j ==> Index(fat, cs, k) != i
    decreases |cs| - from
  {
    if from == |cs| || Index(fat, cs, from) == i then from else Find(fat, cs, i, from + 1)
  }

  /** The index a suballocation record at the chain's end stands for. */
  ghost function TailIndex(fat: Fat, cs: seq<ulong>): nat
    requires InTable(fat, cs)
  {
    if cs == [] then 0 else Index(fat, cs, |cs| - 1) + 1
  }

  /** Byte r of cluster index i of the file; holes and bytes past the end read as zero. */
  ghost function FileByte(fat: Fat, bytes: seq<seq<byte>>, cs: seq<ulong>, tail: ulong, rec: seq<byte>, i: nat, r: nat): byte
    requires InTable(fat, cs)
  {
    var j := Find(fat, cs, i, 0);
    if j < |cs| then
      if cs[j] < |bytes| && r < |bytes[cs[j]]| then bytes[cs[j]][r] else 0
    else if IsSuballoc(tail) && i == TailIndex(fat, cs) && r < |rec| then
      rec[r]
    else
      0
  }

  /** The byte lies before the cut. */
  predicate Before(i: nat, r: nat, fi: nat, off: nat) {
    i < fi || (i == fi && r < off)
  }

  /** A file before: its chain, and the bytes of the record at the end of it. */
  datatype File = File(head: ulong, cs: seq<ulong>, tail: ulong, rec: seq<byte>)

  /** Where to cut: cluster index and offset; sa allows records, and sure says that reading and writing them does not fail. */
  datatype Goal = Goal(fi: nat, off: nat, sa: bool, sure: bool, clusterSize: nat)

  /** The first n clusters stay and lead to link, a record then holding newRec; mid is the state when the cut began. */
  datatype Outcome = Outcome(code: ulong, newHead: ulong, n: nat, link: ulong, newRec: seq<byte>, mid: VolState)

  /** Both begin with the same `off` bytes. */
  ghost predicate SameStart(a: seq<byte>, b: seq<byte>, off: nat, sure: bool) {
    off <= |a| && off <= |b| && (sure ==> a[..off] == b[..off])
  }

  /** The cut lies in the record at the end: all of it goes, or a smaller one can hold what stays. */
  ghost predicate AtTail(fat: Fat, f: File, g: Goal)
    requires InTable(fat, f.cs)
  {
    g.sa && IsSuballoc(f.tail) && TailIndex(fat, f.cs) == g.fi
  }

  ghost predicate Shrinks(fat: Fat, f: File, g: Goal)
    requires InTable(fat, f.cs)
  {
    AtTail(fat, f, g) && g.off != 0 && g.off + (SUBALLOC_BLOCK_SIZE - 1) < |f.rec|
  }

  /** The file has a hole just before its p-th cluster. */
  ghost predicate AfterHole(fat: Fat, cs: seq<ulong>, p: nat)
    requires InTable(fat, cs) && p < |cs|
  {
    TailIndex(fat, cs[..p]) != Index(fat, cs, p)
  }

  /** The cut lies inside the p-th cluster. */
  ghost predicate PartialAt(fat: Fat, f: File, g: Goal, p: nat) {
    InTable(fat, f.cs) && p == Below(fat, f.cs, g.fi, 0) < |f.cs| && Index(fat, f.cs, p) == g.fi && g.off != 0
  }

  /** A record can hold what stays of that cluster. */
  ghost predicate Converts(fat: Fat, f: File, g: Goal, p: nat) {
    g.sa && PartialAt(fat, f, g, p) && !AfterHole(fat, f.cs, p) && g.off + (SUBALLOC_BLOCK_SIZE - 1) < g.clusterSize
  }

  /** Nothing was cut. */
  ghost predicate Uncut(fat: Fat, f: File, g: Goal, o: Outcome)
    requires InTable(fat, f.cs)
  {
    && o.n == |f.cs| == Below(fat, f.cs, g.fi, 0) && o.link == f.tail && !(AtTail(fat, f, g) && g.off == 0)
    && (g.sure || !Shrinks(fat, f, g) ==> o.newRec == f.rec)
  }

  /** End of file after the kept clusters. */
  ghost predicate EofAfter(fat: Fat, f: File, g: Goal, o: Outcome)
    requires InTable(fat, f.cs)
  {
    && o.n == Kept(fat, f.cs, g.fi, g.off) && o.link == EOF
    && (o.n < |f.cs| || TailIndex(fat, f.cs) > g.fi || (TailIndex(fat, f.cs) == g.fi && g.off == 0))
  }

  /** A record in place of the partial cluster. */
  ghost predicate Converted(fat: Fat, bytes: seq<seq<byte>>, f: File, g: Goal, o: Outcome)
    requires InTable(fat, f.cs)
  {
    && Converts(fat, f, g, o.n) && IsSuballoc(o.link)
    && f.cs[o.n] < |bytes| && SameStart(o.newRec, bytes[f.cs[o.n]], g.off, g.sure)
  }

  /** A smaller record in place of the record at the end. */
  ghost predicate Shrunk(fat: Fat, f: File, g: Goal, o: Outcome)
    requires InTable(fat, f.cs)
  {
    && o.n == |f.cs| == Below(fat, f.cs, g.fi, 0) && Shrinks(fat, f, g)
    && IsSuballoc(o.link) && SameStart(o.newRec, f.rec, g.off, g.sure)
  }

  /** The ways truncation ends a chain. */
  ghost predicate GoodCut(fat: Fat, bytes: seq<seq<byte>>, f: File, g: Goal, o: Outcome)
    requires InTable(fat, f.cs)
  {
    Uncut(fat, f, g, o) || EofAfter(fat, f, g, o) || Converted(fat, bytes, f, g, o) || Shrunk(fat, f, g, o)
  }

  /** A record is read or written on the way. */
  ghost predicate UsesRecord(fat: Fat, f: File, g: Goal)
    requires InTable(fat, f.cs)
  {
    var p := Below(fat, f.cs, g.fi, 0);
    Converts(fat, f, g, p) || (p == |f.cs| && Shrinks(fat, f, g))
  }

  /** The kept clusters are found where they were. */
  lemma FindKept(fat: Fat, now: Fat, cs: seq<ulong>, n: nat, i: nat)
    requires InTable(fat, cs) && |now| == |fat| && n <= |cs| && forall j :: 0 <= j < n ==> Index(now, cs, j) == Index(fat, cs, j)
    ensures Find(now, cs[..n], i, 0) == if Find(fat, cs, i, 0) < n then Find(fat, cs, i, 0) else n
    ensures n > 0 ==> TailIndex(now, cs[..n]) == Index(fat, cs, n - 1) + 1
  {
    var j, k := Find(fat, cs, i, 0), Find(now, cs[..n], i, 0);
    assert forall m :: 0 <= m < n ==> Index(now, cs[..n], m) == Index(fat, cs, m);
    if j < n { assert Index(now, cs[..n], j) == i; }
  }

  /** Each of them keeps every byte before the cut, unless a record is read or written with an error. */
  lemma GoodCutKeepsBytes(fat: Fat, now: Fat, bytes: seq<seq<byte>>, f: File, g: Goal, o: Outcome, i: nat, r: nat)
    requires InTable(fat, f.cs) && Ascending(fat, f.cs) && |now| == |fat|
    requires o.n <= |f.cs| && GoodCut(fat, bytes, f, g, o) && (g.sure || !UsesRecord(fat, f, g))
    requires forall j :: 0 <= j < o.n ==> Index(now, f.cs, j) == Index(fat, f.cs, j)
    requires Before(i, r, g.fi, g.off)
    ensures FileByte(now, bytes, f.cs[..o.n], o.link, o.newRec, i, r) == FileByte(fat, bytes, f.cs, f.tail, f.rec, i, r)
  {
    hide Find;
    var n, cs := o.n, f.cs;
    var j := Find(fat, cs, i, 0);
    FindKept(fat, now, cs, n, i);
    if j < n {
      assert cs[..n][j] == cs[j];
    } else if n == |cs| {
      assert cs[..n] == cs;
    }
  }
}
