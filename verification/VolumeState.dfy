/** What the allocation routines of cluster.c do to the FAT, the bitmap, the counters and the hints. */
module VolumeStates {
  import opened Words
  import opened FatTables
  import opened Chains

  datatype Segment = Segment(start: ulong, size: ulong)

  /** turn is AllocSegment, hints are LastAllocatedIndex, nfree and nused the two volume counters. */
  datatype VolState = VolState(fat: Fat, bits: seq<bool>, nfree: nat, nused: nat, hints: seq<ulong>, turn: nat)

  predicate InSegment(g: Segment, c: int) {
    g.start <= c < g.start + g.size
  }

  ghost predicate SegmentsApart(segs: seq<Segment>) {
    forall i, j, c: int :: 0 <= i < j < |segs| && InSegment(segs[i], c) ==> !InSegment(segs[j], c)
  }

  ghost predicate WellFormed(segs: seq<Segment>, s: VolState) {
    |s.fat| == |s.bits| <= MARKER && |s.hints| == |segs| && s.turn < |segs|
  }

  // ---- the steps ------------------------------------------------------------

  /** The first segment from i on that holds cluster c; |segs| if none does. */
  ghost function SegmentFrom(segs: seq<Segment>, i: nat, c: nat): (r: nat)
    requires i <= |segs|
    ensures i <= r <= |segs| && (r < |segs| ==> InSegment(segs[r], c))
    ensures forall k :: i <= k < r ==> !InSegment(segs[k], c)
    decreases |segs| - i
  {
    if i == |segs| || InSegment(segs[i], c) then i else SegmentFrom(segs, i + 1, c)
  }

  /** SetFreeClusterValue pulls the hint of c's segment back to c. */
  ghost function Lowered(segs: seq<Segment>, hints: seq<ulong>, c: ulong): (r: seq<ulong>)
    requires |hints| == |segs|
    ensures |r| == |hints|
  {
    var i := SegmentFrom(segs, 0, c);
    if i < |segs| && c < hints[i] then hints[i := c] else hints
  }

  /** A cluster is freed: entry zeroed, bit cleared, counters moved, hint lowered. */
  ghost function Freed(segs: seq<Segment>, s: VolState, c: ulong): (r: VolState)
    requires WellFormed(segs, s) && c < |s.bits|
    ensures WellFormed(segs, r) && |r.bits| == |s.bits|
  {
    VolState(s.fat[c := FREE_ENTRY], s.bits[c := false], s.nfree + 1, if s.nused > 0 then s.nused - 1 else 0,
             Lowered(segs, s.hints, c), s.turn)
  }

  ghost function Relinked(s: VolState, c: ulong, e: FatEntry): VolState
    requires c < |s.fat|
  {
    s.(fat := s.fat[c := e])
  }

  /** The first clear bit at or after `from`; EOF when there is none. */
  ghost function FirstClear(bits: seq<bool>, from: nat): (r: ulong)
    requires |bits| <= MARKER
    ensures r == EOF ==> forall c :: from <= c < |bits| ==> bits[c]
    ensures r != EOF ==> from <= r < |bits| && !bits[r] && forall c :: from <= c < r ==> bits[c]
    decreases |bits| - from
  {
    if from >= |bits| then EOF else if !bits[from] then from else FirstClear(bits, from + 1)
  }

  /** The cluster the allocator takes: from the hint, else from the segment's start, else from segment 0's start. */
  ghost function Picked(segs: seq<Segment>, s: VolState): ulong
    requires WellFormed(segs, s)
  {
    var a, b := FirstClear(s.bits, s.hints[s.turn]), FirstClear(s.bits, segs[s.turn].start);
    if a != EOF then a else if b != EOF then b else FirstClear(s.bits, segs[0].start)
  }

  /** The state after an allocation; unchanged when nothing was found. */
  ghost function Taken(segs: seq<Segment>, s: VolState, e: FatEntry): (r: VolState)
    requires WellFormed(segs, s)
    ensures WellFormed(segs, r) && |r.bits| == |s.bits|
  {
    var c := Picked(segs, s);
    if c == EOF then s else
    VolState(s.fat[c := e], s.bits[c := true], if s.nfree > 0 then s.nfree - 1 else 0, s.nused + 1,
             s.hints[s.turn := c], if s.turn + 1 >= |segs| then 0 else s.turn + 1)
  }

  // ---- what every step keeps ------------------------------------------------

  ghost predicate Agrees(s: VolState) {
    Agree(s.fat, s.bits, s.nfree, s.nused)
  }

  /** No free cluster of a segment lies before its hint. */
  ghost predicate HintsSound(segs: seq<Segment>, s: VolState)
    requires |s.hints| == |segs|
  {
    forall i, c: int :: 0 <= i < |segs| && InSegment(segs[i], c) && c < s.hints[i] && c < |s.bits| ==> s.bits[c]
  }

  ghost predicate Sound(segs: seq<Segment>, s: VolState) {
    WellFormed(segs, s) && Agrees(s) && HintsSound(segs, s)
  }

  lemma FreeKeepsHints(segs: seq<Segment>, s: VolState, c: ulong)
    requires WellFormed(segs, s) && HintsSound(segs, s) && SegmentsApart(segs) && c < |s.bits|
    ensures HintsSound(segs, Freed(segs, s, c))
  {
    var r := Freed(segs, s, c);
    forall i, d: int | 0 <= i < |segs| && InSegment(segs[i], d) && d < r.hints[i] && d < |r.bits| ensures r.bits[d] {
      if InSegment(segs[i], c) { SegmentOnly(segs, i, c); }
    }
  }

  lemma SegmentOnly(segs: seq<Segment>, i: nat, c: nat)
    requires SegmentsApart(segs) && i < |segs| && InSegment(segs[i], c)
    ensures SegmentFrom(segs, 0, c) == i
  {
  }

  lemma TakeKeepsHints(segs: seq<Segment>, s: VolState, e: FatEntry)
    requires WellFormed(segs, s) && HintsSound(segs, s)
    ensures HintsSound(segs, Taken(segs, s, e))
  {
  }

  /** Freeing keeps everything sound exactly when the cluster was allocated. */
  lemma FreeSound(segs: seq<Segment>, s: VolState, c: ulong)
    requires Sound(segs, s) && SegmentsApart(segs) && c < |s.bits|
    ensures Sound(segs, Freed(segs, s, c)) <==> s.bits[c]
  {
    FreeKeepsHints(segs, s, c);
    FreeKeepsAgreement(s.fat, s.bits, s.nfree, s.nused, c);
  }

  /** Allocating keeps everything sound exactly when the new entry's link is not zero, or nothing was found. */
  lemma TakeSound(segs: seq<Segment>, s: VolState, e: FatEntry)
    requires Sound(segs, s)
    ensures Sound(segs, Taken(segs, s, e)) <==> (e.FATCluster != 0 || Picked(segs, s) == EOF)
  {
    TakeKeepsHints(segs, s, e);
    var c := Picked(segs, s);
    if c != EOF {
      AllocateKeepsAgreement(s.fat, s.bits, s.nfree, s.nused, c, e);
    }
  }

  lemma RelinkSound(segs: seq<Segment>, s: VolState, c: ulong, e: FatEntry)
    requires Sound(segs, s) && c < |s.bits|
    ensures Sound(segs, Relinked(s, c, e)) <==> (s.bits[c] <==> e.FATCluster != 0)
  {
    RelinkKeepsAgreement(s.fat, s.bits, s.nfree, s.nused, c, e);
  }

  /** Which cluster is taken: the first clear one from the hint on; else the first from the segment's start on; else the first from the
      first segment's start on. */
  lemma PickedInTurn(segs: seq<Segment>, s: VolState)
    requires WellFormed(segs, s)
    ensures var hint, start, first, c: nat := s.hints[s.turn], segs[s.turn].start, segs[0].start, Picked(segs, s);
      if exists d: nat :: hint <= d < |s.bits| && !s.bits[d] then
        hint <= c < |s.bits| && !s.bits[c] && forall d :: hint <= d < c ==> s.bits[d]
      else if exists d: nat :: start <= d < |s.bits| && !s.bits[d] then
        start <= c < |s.bits| && !s.bits[c] && forall d :: start <= d < c ==> s.bits[d]
      else if exists d: nat :: first <= d < |s.bits| && !s.bits[d] then
        first <= c < |s.bits| && !s.bits[c] && forall d :: first <= d < c ==> s.bits[d]
      else
        c == 0xFFFF_FFFF
  {
    hide FirstClear;
  }

  /** The turn passes on with every allocation: after n of them it has moved n segments, k times round. */
  lemma {:induction false} TurnsPass(segs: seq<Segment>, s: VolState, es: seq<FatEntry>, t: VolState) returns (k: nat)
    requires WellFormed(segs, s) && Allocating(segs, s, es, t)
    ensures s.turn + |es| == t.turn + k * |segs| && t.turn < |segs|
    decreases es
  {
    hide Picked;
    k := 0;
    if es != [] {
      var next := Taken(segs, s, es[0]);
      var m := TurnsPass(segs, next, es[1..], t);
      k := if next.turn == 0 then m + 1 else m;
      assert (m + 1) * |segs| == m * |segs| + |segs|;
    }
  }

  /** Allocations one after the other, each of which finds a cluster. */
  ghost predicate Allocating(segs: seq<Segment>, s: VolState, es: seq<FatEntry>, t: VolState)
    requires WellFormed(segs, s)
    decreases es
  {
    if es == [] then s == t else Picked(segs, s) != EOF && Allocating(segs, Taken(segs, s, es[0]), es[1..], t)
  }

  /** A freed cluster pulls back the hint of its segment, and no further, and no other hint. */
  lemma LoweredAt(segs: seq<Segment>, hints: seq<ulong>, c: ulong, i: nat)
    requires |hints| == |segs| && SegmentsApart(segs) && i < |segs|
    ensures Lowered(segs, hints, c)[i] == if segs[i].start <= c < segs[i].start + segs[i].size && c < hints[i] then c else hints[i]
  {
    if InSegment(segs[i], c) { SegmentOnly(segs, i, c); }
  }

  /** "Not found" says no cluster is free from the earliest of the three starting points on. */
  lemma NotFoundIsFull(segs: seq<Segment>, s: VolState)
    requires WellFormed(segs, s)
    ensures Picked(segs, s) == EOF <==>
      forall c :: 0 <= c < |s.bits| && (s.hints[s.turn] <= c || segs[s.turn].start <= c || segs[0].start <= c) ==> s.bits[c]
    ensures Picked(segs, s) == EOF ==> forall e :: Taken(segs, s, e) == s
  {
  }

  /** An allocation leaves a chain of allocated clusters as it is exactly if it does not take the free cluster the chain ends in. */
  lemma TakeKeepsChain(segs: seq<Segment>, s: VolState, e: FatEntry, head: ulong, cs: seq<ulong>, tail: ulong)
    requires WellFormed(segs, s) && Chain(s.fat, head, cs, tail) && e.FATCluster != 0
    requires forall c :: c in cs && c < |s.bits| ==> s.bits[c]
    ensures Chain(Taken(segs, s, e).fat, head, cs, tail) <==> Picked(segs, s) == EOF || Picked(segs, s) != tail
  {
    hide Picked, FirstClear;
    PickedIsClear(segs, s);
    WalkLive(s.fat, head, cs, tail);
    WalkFrame(s.fat, Taken(segs, s, e).fat, head, cs, tail);
  }

  lemma PickedIsClear(segs: seq<Segment>, s: VolState)
    requires WellFormed(segs, s)
    ensures Picked(segs, s) != EOF ==> Picked(segs, s) < |s.bits| && !s.bits[Picked(segs, s)]
  {
    hide FirstClear;
  }

  // ---- whole runs -----------------------------------------------------------

  datatype Op = Allocate(e: FatEntry) | Free(c: ulong) | Relink(c: ulong, e: FatEntry)

  /** What the callers owe: nonzero links, and frees and relinks of allocated clusters only. */
  ghost predicate Legal(s: VolState, op: Op) {
    match op
    case Allocate(e) => e.FATCluster != 0
    case Free(c) => c < |s.bits| && s.bits[c]
    case Relink(c, e) => c < |s.bits| && s.bits[c] && e.FATCluster != 0
  }

  ghost function Apply(segs: seq<Segment>, s: VolState, op: Op): (r: VolState)
    requires WellFormed(segs, s) && Legal(s, op)
    ensures WellFormed(segs, r)
  {
    match op
    case Allocate(e) => Taken(segs, s, e)
    case Free(c) => Freed(segs, s, c)
    case Relink(c, e) => Relinked(s, c, e)
  }

  /** s leads to t by the operations, each legal when its turn comes. */
  ghost predicate Leads(segs: seq<Segment>, s: VolState, ops: seq<Op>, t: VolState)
    requires WellFormed(segs, s)
    decreases ops
  {
    if ops == [] then s == t else Legal(s, ops[0]) && Leads(segs, Apply(segs, s, ops[0]), ops[1..], t)
  }

  /** The i-th operation of a run, and the rest. */
  lemma LeadsOn(segs: seq<Segment>, s: VolState, ops: seq<Op>, i: nat)
    requires WellFormed(segs, s) && i < |ops|
    ensures forall t :: Leads(segs, s, ops[i..], t) ==> Legal(s, ops[i]) && Leads(segs, Apply(segs, s, ops[i]), ops[i + 1..], t)
  {
    assert ops[i..][0] == ops[i] && ops[i..][1..] == ops[i + 1..];
  }

  lemma LeadsNowhere(segs: seq<Segment>, s: VolState, t: VolState)
    requires WellFormed(segs, s)
    ensures Leads(segs, s, [], t) ==> s == t
  {
  }

  /** Bitmap, FAT, counters and hints stay in step over every run. */
  lemma {:induction false} RunsStaySound(segs: seq<Segment>, s: VolState, ops: seq<Op>, t: VolState)
    requires Sound(segs, s) && SegmentsApart(segs) && Leads(segs, s, ops, t)
    ensures Sound(segs, t)
    decreases ops
  {
    if ops != [] {
      match ops[0] {
        case Allocate(e) => TakeSound(segs, s, e);
        case Free(c) => FreeSound(segs, s, c);
        case Relink(c, e) => RelinkSound(segs, s, c, e);
      }
      RunsStaySound(segs, Apply(segs, s, ops[0]), ops[1..], t);
    }
  }

  lemma {:induction false} RunsJoin(segs: seq<Segment>, s: VolState, a: seq<Op>, m: VolState, b: seq<Op>, t: VolState)
    requires WellFormed(segs, s) && WellFormed(segs, m) && Leads(segs, s, a, m) && Leads(segs, m, b, t)
    ensures Leads(segs, s, a + b, t)
    decreases a
  {
    if a == [] {
      assert a + b == b;
    } else {
      RunsJoin(segs, Apply(segs, s, a[0]), a[1..], m, b, t);
      assert (a + b)[1..] == a[1..] + b;
    }
  }

  ghost predicate NoFrees(ops: seq<Op>) {
    forall k :: 0 <= k < |ops| ==> !ops[k].Free?
  }

  /** s leads to t by allocations and relinks alone. */
  ghost predicate Grows(segs: seq<Segment>, s: VolState, t: VolState) {
    WellFormed(segs, s) && WellFormed(segs, t) && exists ops :: Leads(segs, s, ops, t) && NoFrees(ops)
  }

  lemma GrowsNot(segs: seq<Segment>, s: VolState)
    requires WellFormed(segs, s)
    ensures Grows(segs, s, s)
  {
    assert Leads(segs, s, [], s) && NoFrees([]);
  }

  lemma GrowsBy(segs: seq<Segment>, s: VolState, op: Op)
    requires WellFormed(segs, s) && Legal(s, op) && !op.Free?
    ensures Grows(segs, s, Apply(segs, s, op))
  {
    var t := Apply(segs, s, op);
    assert Leads(segs, t, [], t);
    assert [op][1..] == [];
    assert Leads(segs, s, [op], t) && NoFrees([op]);
  }

  lemma GrowsTwice(segs: seq<Segment>, s: VolState, m: VolState, t: VolState)
    requires Grows(segs, s, m) && Grows(segs, m, t)
    ensures Grows(segs, s, t)
  {
    hide Leads;
    var a :| Leads(segs, s, a, m) && NoFrees(a);
    var b :| Leads(segs, m, b, t) && NoFrees(b);
    RunsJoin(segs, s, a, m, b, t);
    assert NoFrees(a + b);
  }

  lemma GrowsSound(segs: seq<Segment>, s: VolState, t: VolState)
    requires Grows(segs, s, t) && Sound(segs, s) && SegmentsApart(segs)
    ensures Sound(segs, t)
  {
    hide Leads, Sound;
    var ops :| Leads(segs, s, ops, t) && NoFrees(ops);
    RunsStaySound(segs, s, ops, t);
  }
}
