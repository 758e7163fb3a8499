/** Positions in a table cut into chunks of equal size, without products or quotients in the way. */
module ChunkMath {

  /** s modulo chunk, by repeated subtraction: the place of s in its chunk. */
  ghost function Offset(s: nat, chunk: nat): nat
    requires chunk > 0
  {
    if s < chunk then s else Offset(s - chunk, chunk)
  }

  /** The first index of chunk k: k * e, kept folded so that products stay out of the way. */
  ghost function Start(k: nat, e: nat): nat {
    if k == 0 then 0 else Start(k - 1, e) + e
  }

  lemma {:induction false} StartIsProduct(k: nat, e: nat)
    ensures Start(k, e) == k * e
  {
    if k > 0 {
      StartIsProduct(k - 1, e);
      assert (k - 1) * e + e == k * e;
    }
  }

  lemma {:induction false} StartMonotone(k: nat, m: nat, e: nat)
    requires k < m
    ensures Start(k, e) + e <= Start(m, e)
    decreases m
  {
    if k < m - 1 { StartMonotone(k, m - 1, e); }
  }

  lemma {:induction false} OffsetInChunk(k: nat, i: nat, e: nat)
    requires i < e
    ensures Offset(Start(k, e) + i, e) == i
  {
    if k > 0 { OffsetInChunk(k - 1, i, e); }
  }

  lemma {:induction false} OffsetSmall(s: nat, chunk: nat)
    requires chunk > 0
    ensures Offset(s, chunk) < chunk
  {
    if s >= chunk { OffsetSmall(s - chunk, chunk); }
  }

  /** An index below the limit falls in an existing chunk. */
  lemma Locate(index: nat, limit: nat, count: nat, e: nat)
    requires e > 0 && limit <= Start(count, e)
    ensures index == Start(index / e, e) + index % e && index % e < e
    ensures index < limit ==> index / e < count
  {
    var q := index / e;
    StartIsProduct(q, e);
    if index < limit && q >= count {
      if q > count { StartMonotone(count, q, e); }
    }
  }

  lemma StartMonotoneWeak(k: nat, m: nat, e: nat)
    requires k <= m
    ensures Start(k, e) <= Start(m, e)
  {
    if k < m { StartMonotone(k, m, e); }
  }

  lemma {:induction false} StartGrows(k: nat, e: nat)
    requires e > 0
    ensures k <= Start(k, e)
  {
    if k > 0 { StartGrows(k - 1, e); }
  }
}
