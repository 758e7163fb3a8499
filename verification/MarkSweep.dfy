/** The mount-time check of the volume: marking every file's chain, then sweeping what no chain reaches. */
module MarkSweep {
  import opened Words
  import opened BitBlocks
  import opened FatTables
  import opened Chains
  import opened VolumeStates
  import opened Suballoc
  import opened Volumes

  // ---- marking --------------------------------------------------------------

  /** bits with the clusters of cs set as well. */
  ghost function Marked(bits: seq<bool>, cs: seq<ulong>): (r: seq<bool>)
    ensures |r| == |bits| && forall c: ulong :: c < |bits| ==> r[c] == (bits[c] || c in cs)
  {
    seq(|bits|, c requires 0 <= c < |bits| => bits[c] || exists x: ulong :: x == c && x in cs)
  }

  /** cs are distinct and none of them was marked before. */
  ghost predicate Unmarked(bits: seq<bool>, cs: seq<ulong>) {
    NoDup(cs) && forall c :: c in cs ==> c < |bits| && !bits[c]
  }

  /** What marking returns after walking to `tail`. */
  ghost predicate MarkCode(fat: Fat, bits: seq<bool>, tail: ulong, saFlag: bool, known: bool, code: ulong) {
    if Live(fat, tail) then
      code == EOF && tail < |bits| && bits[tail]
    else if IsSuballoc(tail) then
      code == if saFlag && known then 0 else INVALID_PARAMETER
    else
      code == 0
  }

  /** The record that marking adds: the one at the end of the walk, if it is known and records are allowed. */
  ghost function TailMark(pool: SuballocPool, tail: ulong, saFlag: bool): set<ulong>
    reads pool`Limits
  {
    if saFlag && pool.Known(tail) then {tail} else {}
  }

  /** BuildChainAssignment: walks the chain and marks it until it ends or meets a marked cluster. */
  method BuildChainAssignment(v: Volume, head: ulong, saFlag: bool) returns (code: ulong, ghost cs: seq<ulong>, ghost tail: ulong)
    requires v.Valid()
    modifies v.assignedList, v.suballoc`Used
    ensures v.Valid() && v.suballoc.Used == old(v.suballoc.Used) + TailMark(v.suballoc, tail, saFlag)
    ensures head == 0 || head == EOF ==> code == 0 && cs == [] && v.assignedList.Bits == old(v.assignedList.Bits)
    ensures code == 0 && head != 0 && head != EOF && IsSuballoc(tail) ==> saFlag && v.suballoc.Known(tail) && tail in v.suballoc.Used
    ensures v.fat.Reliable() && head != 0 && head != EOF ==>
      && Walk(v.Table(), head, cs, tail) && Unmarked(old(v.assignedList.Bits), cs)
      && v.assignedList.Bits == Marked(old(v.assignedList.Bits), cs)
      && MarkCode(v.Table(), v.assignedList.Bits, tail, saFlag, v.suballoc.Known(tail), code)
  {
    hide BitBlockList.Valid, FatTable.Valid, SuballocPool.Valid, Walk, CountSet, Marked, Unmarked;
    UnmarkedEmpty(v.assignedList.Bits);
    assert Walk(v.Table(), head, [], head) by { WalkEmpty(v.Table(), head); }
    cs, tail, code := [], head, 0;
    if head == 0 || head == EOF { return; }
    if IsMarker(head) {
      code := MarkTail(v, head, saFlag);
      return;
    }
    var cluster := head;
    var e, lru := v.GetFatEntryAndLRU(cluster);
    while e.Some? && e.value.FATCluster != 0
      invariant v.Valid() && v.Table() == old(v.Table()) && v.suballoc.Used == old(v.suballoc.Used) && tail == cluster && code == 0
      invariant v.fat.Reliable() ==> e == if cluster < v.Mounted then Some(v.Table()[cluster]) else None
      invariant e.Some? ==> cluster < v.Mounted
      invariant !IsMarker(cluster)
      invariant v.fat.Reliable() ==> Walk(v.Table(), head, cs, cluster)
      invariant Unmarked(old(v.assignedList.Bits), cs) && v.assignedList.Bits == Marked(old(v.assignedList.Bits), cs)
      decreases |v.assignedList.Bits| - CountSet(v.assignedList.Bits)
    {
      var taken := MarkCluster(v, cluster, old(v.assignedList.Bits), cs);
      if taken { return EOF, cs, tail; }
      if v.fat.Reliable() { WalkStep(v.Table(), head, cs, cluster); }
      cs := cs + [cluster];
      cluster := e.value.FATCluster;
      tail := cluster;
      if IsMarker(cluster) {
        code := MarkTail(v, cluster, saFlag);
        return;
      }
      e, lru := v.GetFatEntryAndLRU(cluster);
    }
  }

  /** One cluster of the walk: reported if marked already, marked if not. */
  method MarkCluster(v: Volume, cluster: ulong, ghost was: seq<bool>, ghost cs: seq<ulong>) returns (taken: bool)
    requires v.Valid() && cluster < v.Mounted && |was| == v.Mounted
    requires Unmarked(was, cs) && v.assignedList.Bits == Marked(was, cs)
    modifies v.assignedList
    ensures v.Valid()
    ensures taken ==> v.assignedList.Bits == old(v.assignedList.Bits) && v.assignedList.Bits[cluster]
    ensures !taken ==> Unmarked(was, cs + [cluster]) && v.assignedList.Bits == Marked(was, cs + [cluster])
    ensures !taken ==> CountSet(old(v.assignedList.Bits)) < CountSet(v.assignedList.Bits)
  {
    hide BitBlockList.Valid, FatTable.Valid, SuballocPool.Valid, CountSet;
    var value := v.assignedList.GetBitBlockValue(cluster);
    if value != 0 { return true; }
    CountPut(v.assignedList.Bits, cluster, true);
    var code := v.assignedList.SetBitBlockValue(cluster, 1);
    assert v.assignedList.Bits == Marked(was, cs + [cluster]);
    return false;
  }

  lemma UnmarkedEmpty(bits: seq<bool>)
    ensures Unmarked(bits, []) && Marked(bits, []) == bits
  {
  }

  /** The end of the walk: nothing to do at end of file, a suballocation record is marked if allowed. */
  method MarkTail(v: Volume, tail: ulong, saFlag: bool) returns (code: ulong)
    requires v.Valid() && IsMarker(tail)
    modifies v.suballoc`Used
    ensures v.Valid() && v.suballoc.Used == old(v.suballoc.Used) + TailMark(v.suballoc, tail, saFlag)
    ensures code == if tail == EOF || (saFlag && v.suballoc.Known(tail)) then 0 else INVALID_PARAMETER
  {
    if tail == EOF { return 0; }
    if !saFlag { return INVALID_PARAMETER; }
    code := v.suballoc.SetSuballocListValue(tail);
  }

  lemma MeetsItself(fat: Fat, head: ulong, cs: seq<ulong>, tail: ulong, whole: seq<ulong>, end: ulong)
    requires Walk(fat, head, cs, tail) && Live(fat, tail) && Chain(fat, head, whole, end) && NoDup(whole)
    ensures tail in whole && tail !in cs
  {
    WalkIsPrefix(fat, head, cs, tail, whole, end);
  }

  /** Marking complains of a collision exactly when there is no complete chain of unmarked clusters. */
  lemma MarkVerdict(fat: Fat, bits: seq<bool>, head: ulong, cs: seq<ulong>, tail: ulong, sa: bool, known: bool, code: ulong)
    requires |fat| == |bits|
    requires Walk(fat, head, cs, tail) && Unmarked(bits, cs) && MarkCode(fat, Marked(bits, cs), tail, sa, known, code)
    ensures code != EOF <==> exists whole, end :: Chain(fat, head, whole, end) && Unmarked(bits, whole)
  {
    if code != EOF {
      assert Chain(fat, head, cs, tail);
    }
    forall whole, end | Chain(fat, head, whole, end) && Unmarked(bits, whole) ensures code != EOF {
      if code == EOF {
        MeetsItself(fat, head, cs, tail, whole, end);
      }
    }
  }

  // ---- a series of chains ---------------------------------------------------

  ghost function AllClusters(css: seq<seq<ulong>>): seq<ulong> {
    if css == [] then [] else AllClusters(css[..|css| - 1]) + css[|css| - 1]
  }

  /** The chains of the heads, one list of clusters each; a head that names no chain has none. */
  ghost predicate ChainsOf(fat: Fat, heads: seq<ulong>, css: seq<seq<ulong>>, tails: seq<ulong>) {
    && |css| == |tails| == |heads|
    && forall i :: 0 <= i < |heads| ==> if heads[i] == 0 || heads[i] == EOF then css[i] == [] else Chain(fat, heads[i], css[i], tails[i])
  }

  lemma MarkedTwice(bits: seq<bool>, a: seq<ulong>, b: seq<ulong>)
    ensures Marked(Marked(bits, a), b) == Marked(bits, a + b)
    ensures Unmarked(bits, a) && Unmarked(Marked(bits, a), b) ==> Unmarked(bits, a + b)
  {
    forall c | 0 <= c < |bits| && |bits| <= TWO_TO_THE_32 ensures Marked(Marked(bits, a), b)[c] == Marked(bits, a + b)[c] {
      var x: ulong := c;
    }
    if Unmarked(bits, a) && Unmarked(Marked(bits, a), b) {
      forall i, j | 0 <= i < j < |a + b| ensures (a + b)[i] != (a + b)[j] {
        if i < |a| <= j { assert (a + b)[i] in a && (a + b)[j] in b; }
      }
    }
  }

  /** The records at the ends of a series of chains. */
  ghost function TailMarks(pool: SuballocPool, tails: seq<ulong>, saFlag: bool): (r: set<ulong>)
    reads pool`Limits
    ensures forall t: ulong :: t in r <==> t in tails && saFlag && pool.Known(t)
  {
    if tails == [] then {} else TailMarks(pool, tails[..|tails| - 1], saFlag) + TailMark(pool, tails[|tails| - 1], saFlag)
  }

  lemma NoneYet(pool: SuballocPool, fat: Fat, heads: seq<ulong>, saFlag: bool)
    requires heads == []
    ensures TailMarks(pool, [], saFlag) == {} && AllClusters([]) == [] && ChainsOf(fat, heads, [], [])
  {
  }

  lemma OneMore(pool: SuballocPool, css: seq<seq<ulong>>, cs: seq<ulong>, tails: seq<ulong>, tail: ulong, saFlag: bool)
    ensures TailMarks(pool, tails + [tail], saFlag) == TailMarks(pool, tails, saFlag) + TailMark(pool, tail, saFlag)
    ensures AllClusters(css + [cs]) == AllClusters(css) + cs
  {
    assert (css + [cs])[..|css|] == css && (tails + [tail])[..|tails|] == tails;
  }

  lemma ChainsPlus(fat: Fat, heads: seq<ulong>, i: nat, css: seq<seq<ulong>>, cs: seq<ulong>, tails: seq<ulong>, tail: ulong)
    requires i < |heads| && ChainsOf(fat, heads[..i], css, tails)
    requires if heads[i] == 0 || heads[i] == EOF then cs == [] else Chain(fat, heads[i], cs, tail)
    ensures ChainsOf(fat, heads[..i + 1], css + [cs], tails + [tail])
  {
  }

  /** The directory scan's use of marking: chain after chain, until one is refused. */
  method AssignChains(v: Volume, heads: seq<ulong>, saFlag: bool) returns (code: ulong, ghost css: seq<seq<ulong>>, ghost tails: seq<ulong>)
    requires v.Valid()
    modifies v.assignedList, v.suballoc`Used
    ensures v.Valid() && v.suballoc.Used == old(v.suballoc.Used) + TailMarks(v.suballoc, tails, saFlag)
    ensures v.fat.Reliable() && code == 0 ==> |css| == |tails| == |heads|
    ensures v.fat.Reliable() && code == 0 ==>
      forall i :: 0 <= i < |heads| && heads[i] != 0 && heads[i] != EOF ==> Chain(v.Table(), heads[i], css[i], tails[i])
    ensures v.fat.Reliable() && code == 0 ==>
      forall i :: 0 <= i < |heads| && heads[i] != 0 && heads[i] != EOF && IsSuballoc(tails[i]) ==> saFlag && tails[i] in v.suballoc.Used
    ensures v.fat.Reliable() && code == 0 ==>
      && ChainsOf(v.Table(), heads, css, tails) && Unmarked(old(v.assignedList.Bits), AllClusters(css))
      && v.assignedList.Bits == Marked(old(v.assignedList.Bits), AllClusters(css))
    ensures v.fat.Reliable() ==>
      (code == 0 <==> exists whole, ends :: Markable(v.Table(), old(v.assignedList.Bits), v.suballoc, heads, whole, ends, saFlag))
  {
    hide FatTable.Valid, BitBlockList.Valid, SuballocPool.Valid, Volume.Valid, Marked, Unmarked, Walk, CountSet, TailMark, TailMarks, AllClusters,
      ChainsOf, Chain, Markable;
    css, tails, code := [], [], 0;
    UnmarkedEmpty(v.assignedList.Bits);
    NoneYet(v.suballoc, v.Table(), heads[..0], saFlag);
    var i := 0;
    while i < |heads|
      invariant v.Valid() && v.Table() == old(v.Table()) && 0 <= i <= |heads| && code == 0
      invariant v.suballoc.Used == old(v.suballoc.Used) + TailMarks(v.suballoc, tails, saFlag)
      invariant v.fat.Reliable() ==> ChainsOf(v.Table(), heads[..i], css, tails)
      invariant TailsMarked(v, heads[..i], tails, saFlag)
      invariant v.fat.Reliable() ==> Unmarked(old(v.assignedList.Bits), AllClusters(css))
      invariant v.fat.Reliable() ==> v.assignedList.Bits == Marked(old(v.assignedList.Bits), AllClusters(css))
    {
      ghost var was := v.assignedList.Bits;
      ghost var cs, tail;
      code, cs, tail := BuildChainAssignment(v, heads[i], saFlag);
      OneMore(v.suballoc, css, cs, tails, tail, saFlag);
      ghost var before, ends := css, tails;
      css, tails := css + [cs], tails + [tail];
      if v.fat.Reliable() { NeverRefused(v, old(v.assignedList.Bits), heads, i, before, ends, cs, tail, saFlag, code); }
      if code != 0 { return; }
      UnmarkedEmpty(was);
      MarkedTwice(old(v.assignedList.Bits), AllClusters(before), cs);
      if v.fat.Reliable() { ChainsPlus(v.Table(), heads, i, before, cs, ends, tail); }
      i := i + 1;
    }
    assert heads[..i] == heads;
    ChainsEach(v, heads, css, tails, saFlag);
    if v.fat.Reliable() { MarkedAll(v, old(v.assignedList.Bits), heads, css, tails, saFlag); }
  }

  /** Complete chains of the heads, apart from each other and from what is marked, each ending in no record or in a known one. */
  ghost predicate Markable(fat: Fat, bits: seq<bool>, pool: SuballocPool, heads: seq<ulong>, css: seq<seq<ulong>>, tails: seq<ulong>, saFlag: bool)
    reads pool`Limits
  {
    && ChainsOf(fat, heads, css, tails) && Unmarked(bits, AllClusters(css))
    && forall i :: 0 <= i < |heads| && heads[i] != 0 && heads[i] != EOF && IsSuballoc(tails[i]) ==> saFlag && pool.Known(tails[i])
  }

  lemma MarkedAll(v: Volume, bits: seq<bool>, heads: seq<ulong>, css: seq<seq<ulong>>, tails: seq<ulong>, saFlag: bool)
    requires v.Valid() && ChainsOf(v.Table(), heads, css, tails) && Unmarked(bits, AllClusters(css)) && TailsMarked(v, heads, tails, saFlag)
    ensures Markable(v.Table(), bits, v.suballoc, heads, css, tails, saFlag)
  {
    hide Walk, Unmarked, AllClusters;
  }

  lemma NeverRefused(v: Volume, bits: seq<bool>, heads: seq<ulong>, i: nat, css: seq<seq<ulong>>, tails: seq<ulong>, cs: seq<ulong>,
                     tail: ulong, saFlag: bool, code: ulong)
    requires v.Valid() && i < |heads| && ChainsOf(v.Table(), heads[..i], css, tails) && |bits| == v.Mounted
    requires heads[i] == 0 || heads[i] == EOF ==> code == 0
    requires heads[i] != 0 && heads[i] != EOF ==>
      && Walk(v.Table(), heads[i], cs, tail) && Unmarked(Marked(bits, AllClusters(css)), cs)
      && MarkCode(v.Table(), Marked(Marked(bits, AllClusters(css)), cs), tail, saFlag, v.suballoc.Known(tail), code)
    ensures code != 0 ==> forall whole, ends :: !Markable(v.Table(), bits, v.suballoc, heads, whole, ends, saFlag)
  {
    hide Walk, Unmarked, AllClusters, ChainsOf;
    forall whole, ends | Markable(v.Table(), bits, v.suballoc, heads, whole, ends, saFlag) ensures code == 0 {
      if heads[i] != 0 && heads[i] != EOF {
        SameChains(v.Table(), heads, i, css, tails, whole, ends);
        UpToHere(bits, whole, i);
        if Live(v.Table(), tail) {
          MarkedAhead(v.Table(), bits, heads[i], AllClusters(css), cs, tail, whole[i], ends[i]);
        } else {
          ChainUnique(v.Table(), heads[i], cs, tail, whole[i], ends[i]);
        }
      }
    }
  }

  /** The chains of the first heads are those of any list of chains. */
  lemma SameChains(fat: Fat, heads: seq<ulong>, i: nat, css: seq<seq<ulong>>, tails: seq<ulong>, whole: seq<seq<ulong>>, ends: seq<ulong>)
    requires i < |heads| && ChainsOf(fat, heads[..i], css, tails) && ChainsOf(fat, heads, whole, ends)
    ensures i < |whole| == |ends| && css == whole[..i] && (heads[i] != 0 && heads[i] != EOF ==> Chain(fat, heads[i], whole[i], ends[i]))
  {
    forall k | 0 <= k < i ensures css[k] == whole[k] {
      assert heads[..i][k] == heads[k];
      if heads[k] != 0 && heads[k] != EOF { ChainUnique(fat, heads[k], css[k], tails[k], whole[k], ends[k]); }
    }
  }

  /** If all the chains are apart, so are the first ones and the next. */
  lemma {:induction false} UpToHere(bits: seq<bool>, whole: seq<seq<ulong>>, i: nat)
    requires i < |whole| && Unmarked(bits, AllClusters(whole))
    ensures Unmarked(bits, AllClusters(whole[..i]) + whole[i])
    decreases |whole|
  {
    if i == |whole| - 1 {
    } else {
      var front, last := whole[..|whole| - 1], whole[|whole| - 1];
      NoDupApart(AllClusters(front), last);
      assert forall c :: c in AllClusters(front) ==> c in AllClusters(front) + last;
      UpToHere(bits, front, i);
      assert front[..i] == whole[..i];
    }
  }

  /** The cluster a walk stops at is on the rest of its chain, so it is not marked yet. */
  lemma MarkedAhead(fat: Fat, bits: seq<bool>, head: ulong, before: seq<ulong>, cs: seq<ulong>, tail: ulong, whole: seq<ulong>, end: ulong)
    requires Walk(fat, head, cs, tail) && Live(fat, tail) && Chain(fat, head, whole, end) && Unmarked(bits, before + whole)
    ensures tail < |bits| ==> !Marked(Marked(bits, before), cs)[tail]
  {
    hide Walk;
    NoDupApart(before, whole);
    MeetsItself(fat, head, cs, tail, whole, end);
    assert tail in before + whole;
  }

  /** Every record that ends a chain is allowed and marked. */
  ghost predicate TailsMarked(v: Volume, heads: seq<ulong>, tails: seq<ulong>, saFlag: bool)
    reads v.suballoc`Used
  {
    && |tails| == |heads|
    && forall i :: 0 <= i < |heads| && heads[i] != 0 && heads[i] != EOF && IsSuballoc(tails[i]) ==> saFlag && tails[i] in v.suballoc.Used
  }

  lemma ChainsEach(v: Volume, heads: seq<ulong>, css: seq<seq<ulong>>, tails: seq<ulong>, saFlag: bool)
    requires v.Valid() && TailsMarked(v, heads, tails, saFlag)
    ensures |tails| == |heads| && forall i :: 0 <= i < |heads| && heads[i] != 0 && heads[i] != EOF && IsSuballoc(tails[i]) ==> saFlag && tails[i] in v.suballoc.Used
    ensures ChainsOf(v.Table(), heads, css, tails) ==> |css| == |tails| == |heads|
    ensures ChainsOf(v.Table(), heads, css, tails) ==>
      forall i :: 0 <= i < |heads| && heads[i] != 0 && heads[i] != EOF ==> Chain(v.Table(), heads[i], css[i], tails[i])
  {
    hide Walk;
  }

  /** A head that leads somewhere is the first cluster of its chain. */
  lemma HeadOfChain(fat: Fat, heads: seq<ulong>, css: seq<seq<ulong>>, tails: seq<ulong>, i: nat)
    requires ChainsOf(fat, heads, css, tails) && i < |heads| && heads[i] != 0 && Live(fat, heads[i]) && |fat| <= MARKER
    ensures heads[i] in AllClusters(css)
  {
    assert css[i] != [] && css[i][0] == heads[i];
    InAllClusters(css, i, heads[i]);
  }

  lemma NoDupApart(a: seq<ulong>, b: seq<ulong>)
    requires NoDup(a + b)
    ensures NoDup(a) && NoDup(b) && forall x :: x in a ==> x !in b
  {
    forall k, m | 0 <= k < m < |a| ensures a[k] != a[m] { assert (a + b)[k] != (a + b)[m]; }
    forall k, m | 0 <= k < m < |b| ensures b[k] != b[m] { assert (a + b)[|a| + k] != (a + b)[|a| + m]; }
    forall k, m | 0 <= k < |a| && 0 <= m < |b| ensures a[k] != b[m] { assert (a + b)[k] != (a + b)[|a| + m]; }
  }

  /** Marked without complaint, chains are free of cycles and do not meet. */
  lemma {:induction false} MarkedChainsAreApart(css: seq<seq<ulong>>, i: nat, j: nat)
    requires NoDup(AllClusters(css)) && i <= j < |css|
    ensures NoDup(css[j]) && forall x :: x in css[i] ==> x in AllClusters(css) && (i < j ==> x !in css[j])
    decreases |css|
  {
    var front, last := css[..|css| - 1], css[|css| - 1];
    NoDupApart(AllClusters(front), last);
    if j < |front| {
      MarkedChainsAreApart(front, i, j);
    } else if i < j {
      MarkedChainsAreApart(front, i, i);
    }
  }

  // ---- sweeping -------------------------------------------------------------

  /** Allocated in the FAT, but no chain was seen to use it. */
  ghost predicate Orphan(bits: seq<bool>, asg: seq<bool>, c: nat)
    requires c < |bits| == |asg|
  {
    bits[c] && !asg[c]
  }

  ghost function CountOrphans(bits: seq<bool>, asg: seq<bool>, n: nat): nat
    requires n <= |bits| == |asg|
  {
    if n == 0 then 0 else CountOrphans(bits, asg, n - 1) + if Orphan(bits, asg, n - 1) then 1 else 0
  }

  /** The first cluster a chain uses that the FAT has free; |bits| if there is none. */
  ghost function FirstBad(bits: seq<bool>, asg: seq<bool>, from: nat): (r: nat)
    requires from <= |bits| == |asg|
    ensures from <= r <= |bits| && (r < |bits| ==> asg[r] && !bits[r])
    ensures forall c :: from <= c < r ==> asg[c] ==> bits[c]
    decreases |bits| - from
  {
    if from == |bits| || (asg[from] && !bits[from]) then from else FirstBad(bits, asg, from + 1)
  }

  /** The volume after the clusters below n have been swept. */
  ghost function Swept(segs: seq<Segment>, s: VolState, asg: seq<bool>, n: nat): (t: VolState)
    requires WellFormed(segs, s) && n <= |s.bits| == |asg|
    ensures WellFormed(segs, t) && |t.bits| == |s.bits|
  {
    if n == 0 then s else
      var t := Swept(segs, s, asg, n - 1);
      if Orphan(s.bits, asg, n - 1) then Freed(segs, t, n - 1) else t
  }

  /** Sweeping frees the orphans below n and touches nothing else. */
  lemma {:induction false} SweptAt(segs: seq<Segment>, s: VolState, asg: seq<bool>, n: nat)
    requires WellFormed(segs, s) && n <= |s.bits| == |asg|
    ensures var t := Swept(segs, s, asg, n);
      && t.nfree == s.nfree + CountOrphans(s.bits, asg, n)
      && forall c: nat :: c < |s.bits| ==>
        var gone := c < n && Orphan(s.bits, asg, c);
        t.bits[c] == (s.bits[c] && !gone) && t.fat[c] == if gone then FREE_ENTRY else s.fat[c]
  {
    hide Lowered;
    if n > 0 { SweptAt(segs, s, asg, n - 1); }
  }

  lemma {:induction false} SweptSound(segs: seq<Segment>, s: VolState, asg: seq<bool>, n: nat)
    requires Sound(segs, s) && SegmentsApart(segs) && n <= |s.bits| == |asg|
    ensures Sound(segs, Swept(segs, s, asg, n))
  {
    if n > 0 {
      SweptSound(segs, s, asg, n - 1);
      SweptAt(segs, s, asg, n - 1);
      hide Sound, Freed;
      if Orphan(s.bits, asg, n - 1) { FreeSound(segs, Swept(segs, s, asg, n - 1), n - 1); }
    }
  }

  /** AdjustAllocatedClusters, past the directory preallocation: frees orphans, gives up at a bad cluster. */
  method AdjustAllocatedClusters(v: Volume) returns (total: nat)
    requires v.Valid()
    modifies v, v.fat, v.store, v.freeList
    ensures v.Valid() && v.fat.Lay == old(v.fat.Lay) && v.assignedList.Bits == old(v.assignedList.Bits)
    ensures v.fat.Reliable() ==>
      var s, asg := old(v.View()), v.assignedList.Bits;
      var bad := FirstBad(s.bits, asg, 0);
      && v.View() == Swept(v.segments, s, asg, bad)
      && total == if bad < |asg| then 0 else CountOrphans(s.bits, asg, |asg|)
    ensures v.fat.Reliable() ==> (old(v.fat.InSync()) ==> v.fat.InSync())
  {
    hide FatTable.Valid, BitBlockList.Valid, SuballocPool.Valid, Freed, SegmentFrom, Lowered, Volume.View;
    ghost var s := v.View();
    total := 0;
    var i := 0;
    while i < v.Mounted
      invariant v.Valid() && i <= v.Mounted && v.fat.Lay == old(v.fat.Lay) && v.assignedList.Bits == old(v.assignedList.Bits)
      invariant v.fat.Reliable() ==> (old(v.fat.InSync()) ==> v.fat.InSync())
      invariant v.fat.Reliable() ==> i <= FirstBad(s.bits, v.assignedList.Bits, 0)
      invariant v.fat.Reliable() ==> v.View() == Swept(v.segments, s, v.assignedList.Bits, i)
      invariant v.fat.Reliable() ==> total == CountOrphans(s.bits, v.assignedList.Bits, i)
    {
      SweptAt(v.segments, s, v.assignedList.Bits, i);
      ViewBits(v);
      var val1 := v.freeList.GetBitBlockValue(i);
      var val2 := v.assignedList.GetBitBlockValue(i);
      if val1 != val2 {
        if val1 == 0 && val2 != 0 {
          return 0;
        }
        SweepCluster(v, i);
        total := total + 1;
      }
      i := i + 1;
    }
  }

  lemma ViewBits(v: Volume)
    requires v.Valid()
    ensures v.View().bits == v.freeList.Bits
  {
  }

  /** The bit is cleared first, and once more with the FAT entry. */
  method SweepCluster(v: Volume, i: ulong)
    requires v.Valid() && i < v.Mounted
    modifies v, v.fat, v.store, v.freeList
    ensures v.Valid() && v.fat.Lay == old(v.fat.Lay)
    ensures v.fat.Reliable() ==> v.View() == Freed(v.segments, old(v.View()), i)
    ensures v.fat.Reliable() ==> (old(v.fat.InSync()) ==> v.fat.InSync())
  {
    hide FatTable.Valid, BitBlockList.Valid, SuballocPool.Valid;
    LoweredTwice(v.segments, v.LastAllocatedIndex, i);
    var code := v.SetFreeClusterValue(i, 0);
    code := v.FreeClusterNoFlush(i);
  }

  lemma LoweredTwice(segs: seq<Segment>, hints: seq<ulong>, c: ulong)
    requires |hints| == |segs|
    ensures Lowered(segs, Lowered(segs, hints, c), c) == Lowered(segs, hints, c)
  {
  }

  /** Mark and sweep is exact: live chains stay, orphans go, nothing is refused. */
  lemma MarkAndSweepExact(segs: seq<Segment>, s: VolState, base: seq<bool>, heads: seq<ulong>,
                          css: seq<seq<ulong>>, tails: seq<ulong>)
    requires Sound(segs, s) && SegmentsApart(segs)
    requires Within(base, s.bits)
    requires ChainsOf(s.fat, heads, css, tails) && Unmarked(base, AllClusters(css))
    ensures var asg := Marked(base, AllClusters(css));
      var t := Swept(segs, s, asg, |asg|);
      && FirstBad(s.bits, asg, 0) == |asg|
      && t.bits == asg && Sound(segs, t)
      && t.nfree == s.nfree + CountOrphans(s.bits, asg, |asg|)
      && (forall c: ulong :: c < |asg| ==> (s.bits[c] && !t.bits[c] <==> s.bits[c] && !base[c] && c !in AllClusters(css)))
      && (forall c: ulong :: c < |asg| && t.bits[c] ==> t.fat[c] == s.fat[c])
      && ChainsOf(t.fat, heads, css, tails)
  {
    hide Lowered, HintsSound;
    var all := AllClusters(css);
    var asg := Marked(base, all);
    var t := Swept(segs, s, asg, |asg|);
    SweptAt(segs, s, asg, |asg|);
    SweptSound(segs, s, asg, |asg|);
    forall c | 0 <= c < |asg| && asg[c] ensures s.bits[c] {
      var x: ulong := c;
      if x in all { ClusterOfChain(s.fat, heads, css, tails, x); }
    }
    assert t.bits == asg;
    forall i | 0 <= i < |heads| && heads[i] != 0 && heads[i] != EOF ensures Chain(t.fat, heads[i], css[i], tails[i]) {
      forall c | c in css[i] && c < |s.fat| ensures t.fat[c] == s.fat[c] {
        InAllClusters(css, i, c);
      }
      WalkFrame(s.fat, t.fat, heads[i], css[i], tails[i]);
    }
  }

  /** After the sweep every head still leads along its chain, and one with a link is allocated with its entry. */
  lemma HeadsStay(s: VolState, t: VolState, base: seq<bool>, heads: seq<ulong>, css: seq<seq<ulong>>, tails: seq<ulong>)
    requires ChainsOf(s.fat, heads, css, tails) && ChainsOf(t.fat, heads, css, tails) && t.bits == Marked(base, AllClusters(css))
    requires |base| == |s.fat| == |t.fat| <= MARKER && forall c: ulong :: c < |t.bits| && t.bits[c] ==> t.fat[c] == s.fat[c]
    ensures forall i :: 0 <= i < |heads| && heads[i] != 0 && heads[i] != EOF ==> Chain(t.fat, heads[i], css[i], tails[i])
    ensures forall i :: 0 <= i < |heads| && heads[i] != 0 && heads[i] < |s.fat| && s.fat[heads[i]].FATCluster != 0 ==>
      t.bits[heads[i]] && t.fat[heads[i]] == s.fat[heads[i]]
  {
    hide Walk, Marked, AllClusters;
    forall i | 0 <= i < |heads| && heads[i] != 0 && heads[i] < |s.fat| && s.fat[heads[i]].FATCluster != 0
      ensures t.bits[heads[i]] && t.fat[heads[i]] == s.fat[heads[i]]
    {
      HeadOfChain(s.fat, heads, css, tails, i);
    }
  }

  /** The check of a mount: every chain is marked, then the sweep runs. */
  method MarkAndSweep(v: Volume, heads: seq<ulong>, saFlag: bool)
    returns (code: ulong, total: nat, ghost css: seq<seq<ulong>>, ghost tails: seq<ulong>)
    requires v.Valid()
    modifies v, v.fat, v.store, v.freeList, v.assignedList, v.suballoc`Used
    ensures v.Valid() && v.fat.Lay == old(v.fat.Lay)
    ensures v.suballoc.Used == old(v.suballoc.Used) + TailMarks(v.suballoc, tails, saFlag)
    ensures code != 0 ==> v.View() == old(v.View()) && total == 0
    ensures v.fat.Reliable() ==>
      (code == 0 <==> exists whole, ends :: Markable(old(v.Table()), old(v.assignedList.Bits), v.suballoc, heads, whole, ends, saFlag))
    ensures v.fat.Reliable() && code == 0 && SegmentsApart(v.segments) && old(Sound(v.segments, v.View()) && Within(v.assignedList.Bits, v.freeList.Bits)) ==>
      && ChainsOf(v.Table(), heads, css, tails) && Sound(v.segments, v.View())
      && v.assignedList.Bits == Marked(old(v.assignedList.Bits), AllClusters(css))
      && (forall i :: 0 <= i < |heads| && heads[i] != 0 && heads[i] != EOF ==> Chain(v.Table(), heads[i], css[i], tails[i]))
      && (forall i :: 0 <= i < |heads| && heads[i] != 0 && heads[i] < v.Mounted && old(v.Table())[heads[i]].FATCluster != 0 ==>
        v.freeList.Bits[heads[i]] && v.Table()[heads[i]] == old(v.Table())[heads[i]])
      && v.freeList.Bits == v.assignedList.Bits
      && total == CountOrphans(old(v.freeList.Bits), v.assignedList.Bits, v.Mounted)
    ensures v.fat.Reliable() ==> (old(v.fat.InSync()) ==> v.fat.InSync())
  {
    hide FatTable.Valid, BitBlockList.Valid, SuballocPool.Valid, Marked, Unmarked, ChainsOf, AllClusters, HintsSound, Agrees, SegmentsApart,
      CountOrphans, FirstBad, Swept, TailMarks, Markable;
    ghost var s, base := v.View(), v.assignedList.Bits;
    total := 0;
    code, css, tails := AssignChains(v, heads, saFlag);
    label marked:
    if code != 0 { return; }
    ghost var fat := v.Table();
    total := AdjustAllocatedClusters(v);
    if v.fat.Reliable() {
      ghost var whole, ends :| old@marked(Markable(fat, base, v.suballoc, heads, whole, ends, saFlag));
      assert Markable(fat, base, v.suballoc, heads, whole, ends, saFlag);
    }
    if v.fat.Reliable() && SegmentsApart(v.segments) && Sound(v.segments, s) && Within(base, s.bits) {
      MarkAndSweepExact(v.segments, s, base, heads, css, tails);
      HeadsStay(s, v.View(), base, heads, css, tails);
    }
  }

  ghost predicate Within(a: seq<bool>, b: seq<bool>) {
    |a| == |b| && forall c :: 0 <= c < |a| ==> a[c] ==> b[c]
  }

  /** A cluster of some chain has a link. */
  lemma {:induction false} ClusterOfChain(fat: Fat, heads: seq<ulong>, css: seq<seq<ulong>>, tails: seq<ulong>, c: ulong)
    requires ChainsOf(fat, heads, css, tails) && c in AllClusters(css)
    ensures Live(fat, c)
    decreases |css|
  {
    var n := |css| - 1;
    if c in css[n] {
      WalkLive(fat, heads[n], css[n], tails[n]);
    } else {
      ClusterOfChain(fat, heads[..n], css[..n], tails[..n], c);
    }
  }

  lemma {:induction false} InAllClusters(css: seq<seq<ulong>>, i: nat, c: ulong)
    requires i < |css| && c in css[i]
    ensures c in AllClusters(css)
    decreases |css|
  {
    if i < |css| - 1 { InAllClusters(css[..|css| - 1], i, c); }
  }

  // ---- mounting -------------------------------------------------------------

  /** No free cluster below n lies before its segment's hint. */
  ghost predicate HintsSoundBelow(segs: seq<Segment>, hints: seq<ulong>, bits: seq<bool>, n: nat)
    requires |hints| == |segs|
  {
    forall i, c: int :: 0 <= i < |segs| && InSegment(segs[i], c) && c < hints[i] && c < n && c < |bits| ==> bits[c]
  }

  /** The verify loop of ReadFATTable builds the free bitmap and the counters from the FAT. */
  method ReadFATTable(v: Volume) returns (code: ulong)
    requires v.Valid() && v.VolumeAllocatedClusters == 0 && v.VolumeFreeClusters == 0
    modifies v`LastAllocatedIndex, v`VolumeAllocatedClusters, v`VolumeFreeClusters, v.freeList
    ensures v.Valid() && v.Table() == old(v.Table())
    ensures v.fat.Reliable() ==> code == 0
    ensures v.fat.Reliable() && SegmentsApart(v.segments) ==> Sound(v.segments, v.View())
  {
    hide FatTable.Valid, BitBlockList.Valid, SuballocPool.Valid, CountSet, HintsSoundBelow, Lowered, SegmentsApart, Sound;
    var i := 0;
    NoHintsYet(v.segments, v.LastAllocatedIndex, v.freeList.Bits);
    while i < v.Mounted
      invariant v.Valid() && i <= v.Mounted && v.Table() == old(v.Table())
      invariant v.fat.Reliable() ==> forall c :: 0 <= c < i ==> (v.freeList.Bits[c] <==> v.Table()[c].FATCluster != 0)
      invariant v.VolumeAllocatedClusters == CountSet(v.freeList.Bits[..i]) && v.VolumeFreeClusters == i - CountSet(v.freeList.Bits[..i])
      invariant SegmentsApart(v.segments) ==> HintsSoundBelow(v.segments, v.LastAllocatedIndex, v.freeList.Bits, i)
    {
      var e, lru := v.GetFatEntryAndLRU(i);
      if e == None { return EOF; }
      CountNext(v.freeList.Bits, i, e.value.FATCluster != 0);
      HintsNext(v.segments, v.LastAllocatedIndex, v.freeList.Bits, i, e.value.FATCluster != 0);
      if e.value.FATCluster != 0 {
        var err := v.SetFreeClusterValue(i, 1);
        v.VolumeAllocatedClusters := v.VolumeAllocatedClusters + 1;
      } else {
        var err := v.SetFreeClusterValue(i, 0);
        v.VolumeFreeClusters := v.VolumeFreeClusters + 1;
      }
      i := i + 1;
    }
    code := 0;
    assert v.freeList.Bits[..i] == v.freeList.Bits;
    if v.fat.Reliable() && SegmentsApart(v.segments) { MountEnds(v.segments, v.View()); }
  }

  lemma NoHintsYet(segs: seq<Segment>, hints: seq<ulong>, bits: seq<bool>)
    requires |hints| == |segs|
    ensures HintsSoundBelow(segs, hints, bits, 0) && CountSet(bits[..0]) == 0
  {
  }

  lemma MountEnds(segs: seq<Segment>, s: VolState)
    requires WellFormed(segs, s) && forall c :: 0 <= c < |s.bits| ==> (s.bits[c] <==> s.fat[c].FATCluster != 0)
    requires s.nused == CountSet(s.bits) && s.nfree == |s.bits| - CountSet(s.bits) && HintsSoundBelow(segs, s.hints, s.bits, |s.bits|)
    ensures Sound(segs, s)
  {
    hide CountSet;
  }

  lemma CountNext(bits: seq<bool>, i: nat, b: bool)
    requires i < |bits|
    ensures CountSet(bits[i := b][..i + 1]) == CountSet(bits[..i]) + if b then 1 else 0
  {
    assert bits[i := b][..i + 1][..i] == bits[..i];
  }

  lemma HintsNext(segs: seq<Segment>, hints: seq<ulong>, bits: seq<bool>, i: ulong, b: bool)
    requires |hints| == |segs| && i < |bits|
    ensures SegmentsApart(segs) && HintsSoundBelow(segs, hints, bits, i) ==>
      HintsSoundBelow(segs, Lowered(segs, hints, i), bits[i := b], i + 1)
  {
    if SegmentsApart(segs) && HintsSoundBelow(segs, hints, bits, i) {
      var r := Lowered(segs, hints, i);
      forall k, c: int | 0 <= k < |segs| && InSegment(segs[k], c) && c < r[k] && c < i + 1 && c < |bits| ensures bits[i := b][c] {
        if InSegment(segs[k], i) { SegmentOnly(segs, k, i); }
      }
    }
  }
}
