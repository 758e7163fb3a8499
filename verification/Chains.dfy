/** FAT chains as sequences of clusters, and the bitmap that must agree with the FAT. */
module Chains {
  import opened Words
  import opened FatTables

  type Fat = seq<FatEntry>

  const FREE_ENTRY: FatEntry := FatEntry(0, 0)

  /** A walk goes on from c: the entry exists and its link is not zero. */
  ghost predicate Live(fat: Fat, c: ulong) {
    c < |fat| && fat[c].FATCluster != 0
  }

  /** Following links from `head` visits `cs` and then stands at `tail`. */
  ghost predicate Walk(fat: Fat, head: ulong, cs: seq<ulong>, tail: ulong)
    decreases cs
  {
    if cs == [] then head == tail else cs[0] == head && Live(fat, head) && Walk(fat, fat[head].FATCluster, cs[1..], tail)
  }

  /** A walk that cannot go on: it ended at a marker, a free entry, or outside the table. */
  ghost predicate Chain(fat: Fat, head: ulong, cs: seq<ulong>, tail: ulong) {
    Walk(fat, head, cs, tail) && !Live(fat, tail)
  }

  lemma {:induction false} WalkSplit(fat: Fat, head: ulong, cs: seq<ulong>, tail: ulong, k: nat)
    requires Walk(fat, head, cs, tail) && k <= |cs|
    ensures Walk(fat, head, cs[..k], if k < |cs| then cs[k] else tail)
    ensures Walk(fat, if k < |cs| then cs[k] else tail, cs[k..], tail)
    decreases k
  {
    if k > 0 {
      WalkSplit(fat, fat[head].FATCluster, cs[1..], tail, k - 1);
      assert cs[..k][1..] == cs[1..][..k - 1];
      assert cs[1..][k - 1..] == cs[k..];
    }
  }

  lemma {:induction false} WalkJoin(fat: Fat, head: ulong, a: seq<ulong>, mid: ulong, b: seq<ulong>, tail: ulong)
    requires Walk(fat, head, a, mid) && Walk(fat, mid, b, tail)
    ensures Walk(fat, head, a + b, tail)
    decreases a
  {
    if a == [] {
      assert a + b == b;
    } else {
      WalkJoin(fat, fat[head].FATCluster, a[1..], mid, b, tail);
      assert (a + b)[1..] == a[1..] + b;
    }
  }

  lemma WalkEmpty(fat: Fat, head: ulong)
    ensures Walk(fat, head, [], head)
  {
  }

  /** One more step of a walk. */
  lemma WalkStep(fat: Fat, head: ulong, cs: seq<ulong>, c: ulong)
    requires Walk(fat, head, cs, c) && Live(fat, c)
    ensures Walk(fat, head, cs + [c], fat[c].FATCluster)
  {
    assert Walk(fat, c, [c], fat[c].FATCluster) by {
      assert [c][1..] == [];
    }
    WalkJoin(fat, head, cs, c, [c], fat[c].FATCluster);
  }

  lemma {:induction false} WalkAt(fat: Fat, head: ulong, cs: seq<ulong>, tail: ulong, i: nat)
    requires Walk(fat, head, cs, tail) && i < |cs|
    ensures Live(fat, cs[i]) && fat[cs[i]].FATCluster == if i + 1 < |cs| then cs[i + 1] else tail
    decreases i
  {
    var rest := cs[1..];
    if i == 0 {
      assert Walk(fat, fat[head].FATCluster, rest, tail);
      if rest != [] { assert rest[0] == cs[1]; }
    } else {
      WalkAt(fat, fat[head].FATCluster, rest, tail, i - 1);
    }
  }

  lemma WalkLive(fat: Fat, head: ulong, cs: seq<ulong>, tail: ulong)
    requires Walk(fat, head, cs, tail)
    ensures forall i :: 0 <= i < |cs| ==> Live(fat, cs[i])
  {
    forall i | 0 <= i < |cs| ensures Live(fat, cs[i]) { WalkAt(fat, head, cs, tail, i); }
  }

  /** A chain is determined by its head. */
  lemma {:induction false} ChainUnique(fat: Fat, head: ulong, a: seq<ulong>, s: ulong, b: seq<ulong>, t: ulong)
    requires Chain(fat, head, a, s) && Chain(fat, head, b, t)
    ensures a == b && s == t
    decreases a
  {
    if a != [] && b != [] {
      ChainUnique(fat, fat[head].FATCluster, a[1..], s, b[1..], t);
      assert a == [a[0]] + a[1..] && b == [b[0]] + b[1..];
    }
  }

  /** A walk that could go on is a proper prefix of the whole chain. */
  lemma {:induction false} WalkIsPrefix(fat: Fat, head: ulong, a: seq<ulong>, s: ulong, b: seq<ulong>, t: ulong)
    requires Walk(fat, head, a, s) && Live(fat, s) && Chain(fat, head, b, t)
    ensures |a| < |b| && a == b[..|a|] && s == b[|a|]
    decreases a
  {
    if a != [] {
      WalkIsPrefix(fat, fat[head].FATCluster, a[1..], s, b[1..], t);
      assert a == [a[0]] + a[1..] && b == [b[0]] + b[1..];
    }
  }

  /** A walk that stops never came back to a cluster. */
  lemma ChainAcyclic(fat: Fat, head: ulong, cs: seq<ulong>, tail: ulong)
    requires Chain(fat, head, cs, tail)
    ensures NoDup(cs)
  {
    forall i, j | 0 <= i < j < |cs| ensures cs[i] != cs[j] {
      if cs[i] == cs[j] {
        WalkSplit(fat, head, cs, tail, i);
        WalkSplit(fat, head, cs, tail, j);
        ChainUnique(fat, cs[i], cs[i..], tail, cs[j..], tail);
        assert false;
      }
    }
  }

  /** Only the entries on a walk matter to it. */
  lemma {:induction false} WalkFrame(fat: Fat, now: Fat, head: ulong, cs: seq<ulong>, tail: ulong)
    requires Walk(fat, head, cs, tail) && |now| == |fat|
    requires forall c :: c in cs && c < |fat| ==> now[c] == fat[c]
    ensures Walk(now, head, cs, tail)
    decreases cs
  {
    if cs != [] {
      assert head in cs;
      WalkFrame(fat, now, fat[head].FATCluster, cs[1..], tail);
    }
  }

  /** A chain that ends in a marker survives any change outside its clusters. */
  lemma ChainFrame(fat: Fat, now: Fat, head: ulong, cs: seq<ulong>, tail: ulong)
    requires Chain(fat, head, cs, tail) && |now| == |fat| <= MARKER && IsMarker(tail)
    requires forall c :: c in cs && c < |fat| ==> now[c] == fat[c]
    ensures Chain(now, head, cs, tail)
  {
    WalkFrame(fat, now, head, cs, tail);
  }

  /** Two chains either share nothing or run together from where they meet. */
  lemma ChainsMeet(fat: Fat, h: ulong, a: seq<ulong>, s: ulong, g: ulong, b: seq<ulong>, t: ulong, i: nat, j: nat)
    requires Chain(fat, h, a, s) && Chain(fat, g, b, t)
    requires i < |a| && j < |b| && a[i] == b[j]
    ensures a[i..] == b[j..] && s == t
  {
    WalkSplit(fat, h, a, s, i);
    WalkSplit(fat, g, b, t, j);
    ChainUnique(fat, a[i], a[i..], s, b[j..], t);
  }

  // ---- the bitmap and the counters ------------------------------------------

  ghost function CountSet(bits: seq<bool>): (n: nat)
    ensures n <= |bits|
  {
    if bits == [] then 0 else CountSet(bits[..|bits| - 1]) + if bits[|bits| - 1] then 1 else 0
  }

  lemma {:induction false} CountPut(bits: seq<bool>, c: nat, v: bool)
    requires c < |bits|
    ensures CountSet(bits[c := v]) == CountSet(bits) - (if bits[c] then 1 else 0) + (if v then 1 else 0)
  {
    var last := |bits| - 1;
    if c < last {
      CountPut(bits[..last], c, v);
      assert bits[c := v][..last] == bits[..last][c := v];
    } else {
      assert bits[c := v][..last] == bits[..last];
    }
  }

  /** A clear bit leaves room: the count is short of the length. */
  lemma CountRoom(bits: seq<bool>, c: nat)
    requires c < |bits| && !bits[c]
    ensures CountSet(bits) < |bits|
  {
    CountPut(bits, c, true);
    assert CountSet(bits[c := true]) <= |bits|;
  }

  lemma CountUsed(bits: seq<bool>, c: nat)
    requires c < |bits| && bits[c]
    ensures CountSet(bits) > 0
  {
    CountPut(bits, c, false);
  }

  /** Bit c is set exactly when entry c has a link, and the counters count the bits. */
  ghost predicate Agree(fat: Fat, bits: seq<bool>, nfree: nat, nused: nat) {
    && |fat| == |bits|
    && (forall c :: 0 <= c < |bits| ==> (bits[c] <==> fat[c].FATCluster != 0))
    && nused == CountSet(bits)
    && nfree == |bits| - CountSet(bits)
  }

  /** Freeing: the guarded counter updates of every free routine, exact for an allocated cluster only. */
  lemma FreeKeepsAgreement(fat: Fat, bits: seq<bool>, nfree: nat, nused: nat, c: nat)
    requires Agree(fat, bits, nfree, nused) && c < |bits|
    ensures Agree(fat[c := FREE_ENTRY], bits[c := false], nfree + 1, if nused > 0 then nused - 1 else 0) <==> bits[c]
  {
    CountPut(bits, c, false);
    if bits[c] { CountUsed(bits, c); }
    assert fat[c := FREE_ENTRY][c] == FREE_ENTRY;
  }

  /** Allocating: the bit was found clear and set, the entry gets a link; exact for a nonzero link only. */
  lemma AllocateKeepsAgreement(fat: Fat, bits: seq<bool>, nfree: nat, nused: nat, c: nat, e: FatEntry)
    requires Agree(fat, bits, nfree, nused) && c < |bits| && !bits[c]
    ensures Agree(fat[c := e], bits[c := true], if nfree > 0 then nfree - 1 else 0, nused + 1) <==> e.FATCluster != 0
  {
    CountPut(bits, c, true);
    CountRoom(bits, c);
    assert fat[c := e][c] == e && bits[c := true][c];
  }

  /** Relinking touches no bit and no counter; exact for an allocated cluster and a nonzero link. */
  lemma RelinkKeepsAgreement(fat: Fat, bits: seq<bool>, nfree: nat, nused: nat, c: nat, e: FatEntry)
    requires Agree(fat, bits, nfree, nused) && c < |bits|
    ensures Agree(fat[c := e], bits, nfree, nused) <==> (bits[c] <==> e.FATCluster != 0)
  {
    if Agree(fat[c := e], bits, nfree, nused) {
      assert fat[c := e][c] == e;
    }
  }
}
