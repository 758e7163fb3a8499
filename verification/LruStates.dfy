/** The block cache's elements and the lists that hold them, and what every list operation keeps (lru.c). */
module LruStates {
  import opened Words

  type Block = s: seq<byte> | |s| == IO_BLOCK_SIZE witness seq(IO_BLOCK_SIZE, _ => 0)
  type Ptr = nat

  datatype Key = Key(volnum: ulong, block: ulong)

  /** One LRU structure. The state bits are DATAVALID, UPTODATE, DIRTY, FLUSHING, LOADING and MODIFIED; submitted is io_signature.
      The last three fields are the model's own: holders that may write, a read that has come in, bytes that a write has put out. */
  datatype Lru = Lru(
    key: Key, buffer: Block, handle: nat,
    valid: bool, uptodate: bool, dirty: bool, flushing: bool, loading: bool, modified: bool,
    submitted: bool, lockCount: nat,
    writers: nat, loaded: bool, written: set<nat>)

  /** active is ListHead, free is LRUFreeHead; lists and local are LRUList and LocalLRUBlocks of each handle; hash is LRUBlockHash. */
  datatype Cache = Cache(
    elems: map<Ptr, Lru>, active: seq<Ptr>, free: seq<Ptr>, lists: seq<seq<Ptr>>, local: seq<nat>,
    hash: seq<seq<Ptr>>, blocks: nat, dirtyBuffers: nat)

  /** MaximumLRUBlocks of each handle and MAX_LRU_BLOCKS, and whether there is memory for every element these allow. */
  datatype Limits = Limits(max: seq<nat>, total: nat, ample: bool)

  function Without(s: seq<Ptr>, x: Ptr): (r: seq<Ptr>)
    ensures NoDup(s) ==> NoDup(r) && forall p :: p in r <==> p in s && p != x
    ensures |r| == |s| - (if x in s then 1 else 0)
  {
    if s == [] then [] else if s[0] == x then s[1..] else
    var rest := Without(s[1..], x);
    assert NoDup(s) ==> NoDup(s[1..]) && s[0] !in s[1..];
    assert NoDup(s) ==> s[0] !in rest;
    [s[0]] + rest
  }

  lemma NoDupAppend(s: seq<Ptr>, x: Ptr)
    requires NoDup(s) && x !in s
    ensures NoDup(s + [x]) && NoDup([x] + s)
  {
  }

  // ---- where the elements are -----------------------------------------------

  ghost predicate OnActive(c: Cache, out: set<Ptr>, p: Ptr) {
    p in c.active && p in c.elems && p !in out
  }

  ghost predicate ListIs(lim: Limits, c: Cache, out: set<Ptr>, h: nat)
    requires h < |c.lists| == |c.local| == |lim.max|
  {
    && NoDup(c.lists[h]) && c.local[h] == |c.lists[h]| <= lim.max[h]
    && forall p :: p in c.lists[h] <==> OnActive(c, out, p) && c.elems[p].handle == h
  }

  ghost predicate BucketIs(c: Cache, out: set<Ptr>, b: nat)
    requires b < |c.hash|
  {
    && NoDup(c.hash[b])
    && forall p :: p in c.hash[b] <==> OnActive(c, out, p) && Bucket(c.elems[p].key.block, |c.hash|) == b
  }

  /** Every element is on exactly one of the active and the free list; the active ones outside unlisted are on their handle's
      list, those outside unhashed in their bucket, at most one for each volume and block; the counters count. */
  ghost predicate Placed(lim: Limits, c: Cache, unlisted: set<Ptr>, unhashed: set<Ptr>) {
    && NoDup(c.active) && NoDup(c.free) && (forall p :: p in c.active ==> p !in c.free)
    && (forall p :: p in c.elems <==> p in c.active || p in c.free)
    && c.blocks == |c.active| + |c.free| <= lim.total
    && |c.lists| == |c.local| == |lim.max| && |c.hash| > 0
    && (forall h :: 0 <= h < |c.lists| ==> ListIs(lim, c, unlisted, h))
    && (forall b :: 0 <= b < |c.hash| ==> BucketIs(c, unhashed, b))
    && (forall p :: OnActive(c, unlisted, p) ==> c.elems[p].handle < |c.lists|)
    && (forall p, q :: OnActive(c, unhashed, p) && OnActive(c, unhashed, q) && c.elems[p].key == c.elems[q].key ==> p == q)
  }

  // ---- the list operations --------------------------------------------------

  function RemoveLRU(c: Cache, p: Ptr): Cache
    requires p in c.elems && c.elems[p].handle < |c.lists| == |c.local|
  {
    var h := c.elems[p].handle;
    c.(lists := c.lists[h := Without(c.lists[h], p)], local := c.local[h := if c.local[h] > 0 then c.local[h] - 1 else 0])
  }

  function InsertLRU(c: Cache, p: Ptr, top: bool): Cache
    requires p in c.elems && c.elems[p].handle < |c.lists| == |c.local|
  {
    var h := c.elems[p].handle;
    c.(lists := c.lists[h := if top then [p] + c.lists[h] else c.lists[h] + [p]], local := c.local[h := c.local[h] + 1])
  }

  function RemoveHash(c: Cache, p: Ptr): Cache
    requires p in c.elems && |c.hash| > 0
  {
    var b := Bucket(c.elems[p].key.block, |c.hash|);
    c.(hash := c.hash[b := Without(c.hash[b], p)])
  }

  function AddToHash(c: Cache, p: Ptr): Cache
    requires p in c.elems && |c.hash| > 0
  {
    var b := Bucket(c.elems[p].key.block, |c.hash|);
    c.(hash := c.hash[b := c.hash[b] + [p]])
  }

  function Put(c: Cache, p: Ptr, e: Lru): Cache {
    c.(elems := c.elems[p := e])
  }

  lemma RemoveLRUPlaced(lim: Limits, c: Cache, ul: set<Ptr>, uh: set<Ptr>, p: Ptr)
    requires Placed(lim, c, ul, uh) && OnActive(c, ul, p)
    ensures Placed(lim, RemoveLRU(c, p), ul + {p}, uh)
    ensures var h := c.elems[p].handle; RemoveLRU(c, p).local[h] < lim.max[h]
  {
    hide Bucket, BucketIs, NoDup;
    var d, g := RemoveLRU(c, p), c.elems[p].handle;
    assert ListIs(lim, c, ul, g);
    forall h | 0 <= h < |d.lists| ensures ListIs(lim, d, ul + {p}, h) { assert ListIs(lim, c, ul, h); }
    forall b | 0 <= b < |d.hash| ensures BucketIs(d, uh, b) { SameBucket(c, d, uh, b); }
  }

  lemma SameBucket(c: Cache, d: Cache, out: set<Ptr>, b: nat)
    requires b < |c.hash| && BucketIs(c, out, b) && d.hash == c.hash && d.elems == c.elems && d.active == c.active
    ensures BucketIs(d, out, b)
  {
    forall p ensures OnActive(d, out, p) == OnActive(c, out, p) {}
  }

  lemma SameList(lim: Limits, c: Cache, d: Cache, out: set<Ptr>, h: nat)
    requires h < |c.lists| == |c.local| == |lim.max| && ListIs(lim, c, out, h)
    requires d.lists == c.lists && d.local == c.local && d.elems == c.elems && d.active == c.active
    ensures ListIs(lim, d, out, h)
  {
    forall p ensures OnActive(d, out, p) == OnActive(c, out, p) {}
  }

  lemma InsertLRUPlaced(lim: Limits, c: Cache, ul: set<Ptr>, uh: set<Ptr>, p: Ptr, top: bool)
    requires Placed(lim, c, ul, uh) && OnActive(c, {}, p) && p in ul
    requires c.elems[p].handle < |c.lists| && c.local[c.elems[p].handle] < lim.max[c.elems[p].handle]
    ensures Placed(lim, InsertLRU(c, p, top), ul - {p}, uh)
  {
    hide Bucket, BucketIs, NoDup;
    var d, g := InsertLRU(c, p, top), c.elems[p].handle;
    assert ListIs(lim, c, ul, g);
    NoDupAppend(c.lists[g], p);
    forall h | 0 <= h < |d.lists| ensures ListIs(lim, d, ul - {p}, h) { assert ListIs(lim, c, ul, h); }
    forall b | 0 <= b < |d.hash| ensures BucketIs(d, uh, b) { SameBucket(c, d, uh, b); }
  }

  lemma RemoveHashPlaced(lim: Limits, c: Cache, ul: set<Ptr>, uh: set<Ptr>, p: Ptr)
    requires Placed(lim, c, ul, uh) && OnActive(c, uh, p)
    ensures Placed(lim, RemoveHash(c, p), ul, uh + {p})
  {
    hide Bucket, ListIs, NoDup;
    var d := RemoveHash(c, p);
    forall h | 0 <= h < |d.lists| ensures ListIs(lim, d, ul, h) { SameList(lim, c, d, ul, h); }
    forall b | 0 <= b < |d.hash| ensures BucketIs(d, uh + {p}, b) { assert BucketIs(c, uh, b); }
  }

  lemma AddToHashPlaced(lim: Limits, c: Cache, ul: set<Ptr>, uh: set<Ptr>, p: Ptr)
    requires Placed(lim, c, ul, uh) && OnActive(c, {}, p) && p in uh
    requires forall q :: OnActive(c, uh, q) ==> c.elems[q].key != c.elems[p].key
    ensures Placed(lim, AddToHash(c, p), ul, uh - {p})
  {
    hide Bucket, ListIs, NoDup;
    var d := AddToHash(c, p);
    var g := Bucket(c.elems[p].key.block, |c.hash|);
    assert BucketIs(c, uh, g);
    NoDupAppend(c.hash[g], p);
    forall h | 0 <= h < |d.lists| ensures ListIs(lim, d, ul, h) { SameList(lim, c, d, ul, h); }
    forall b | 0 <= b < |d.hash| ensures BucketIs(d, uh - {p}, b) { assert BucketIs(c, uh, b); }
  }

  /** Changing an element's other fields moves nothing. */
  lemma PutPlaced(lim: Limits, c: Cache, ul: set<Ptr>, uh: set<Ptr>, p: Ptr, e: Lru)
    requires Placed(lim, c, ul, uh) && p in c.elems
    requires p in ul || p in c.free || e.handle == c.elems[p].handle
    requires p in uh || p in c.free || e.key == c.elems[p].key
    ensures Placed(lim, Put(c, p, e), ul, uh)
  {
    hide Bucket, NoDup;
    var d := Put(c, p, e);
    assert forall q :: q in c.elems <==> q in d.elems;
    forall h | 0 <= h < |d.lists| ensures ListIs(lim, d, ul, h) { assert ListIs(lim, c, ul, h); }
    forall b | 0 <= b < |d.hash| ensures BucketIs(d, uh, b) { assert BucketIs(c, uh, b); }
  }

  // ---- taking and shelving elements -----------------------------------------

  /** GetFreeLRU, InsertListHead. */
  function TakeFree(c: Cache, h: nat): Cache
    requires c.free != [] && c.free[0] in c.elems
  {
    var p := c.free[0];
    Put(c, p, c.elems[p].(handle := h)).(free := c.free[1..], active := c.active + [p])
  }

  function NewLru(h: nat): Lru {
    Lru(Key(EOF, EOF), seq(IO_BLOCK_SIZE, _ => 0), h, false, false, false, false, false, false, false, 0, 0, false, {})
  }

  /** AllocateLRUElement. */
  function Grow(c: Cache, p: Ptr, h: nat): Cache {
    Put(c, p, NewLru(h)).(active := c.active + [p], blocks := c.blocks + 1)
  }

  /** RemoveListHead, state = L_FREE, PutFreeLRU. */
  function Shelve(c: Cache, p: Ptr): Cache
    requires p in c.elems
  {
    var e := c.elems[p].(valid := false, uptodate := false, dirty := false, flushing := false, loading := false, modified := false,
                         submitted := false, loaded := false);
    Put(c, p, e).(active := Without(c.active, p), free := c.free + [p])
  }

  lemma TakeFreePlaced(lim: Limits, c: Cache, h: nat)
    requires Placed(lim, c, {}, {}) && c.free != []
    ensures c.free[0] in c.elems
    ensures Placed(lim, TakeFree(c, h), {c.free[0]}, {c.free[0]}) && OnActive(TakeFree(c, h), {}, c.free[0])
  {
    hide Bucket, NoDup;
    var p := c.free[0];
    assert p in c.free;
    var d, out := TakeFree(c, h), {p};
    TailNoDup(c.free);
    NoDupAppend(c.active, p);
    assert forall q :: q in c.elems <==> q in d.elems;
    forall g | 0 <= g < |d.lists| ensures ListIs(lim, d, out, g) { assert ListIs(lim, c, {}, g); }
    forall b | 0 <= b < |d.hash| ensures BucketIs(d, out, b) { assert BucketIs(c, {}, b); }
  }

  lemma TailNoDup(s: seq<Ptr>)
    requires NoDup(s) && s != []
    ensures NoDup(s[1..]) && forall p :: p in s[1..] <==> p in s && p != s[0]
  {
  }

  lemma GrowPlaced(lim: Limits, c: Cache, p: Ptr, h: nat)
    requires Placed(lim, c, {}, {}) && p !in c.elems && c.blocks < lim.total
    ensures Placed(lim, Grow(c, p, h), {p}, {p}) && OnActive(Grow(c, p, h), {}, p)
  {
    hide Bucket, NoDup;
    var d, out := Grow(c, p, h), {p};
    NoDupAppend(c.active, p);
    forall g | 0 <= g < |d.lists| ensures ListIs(lim, d, out, g) { assert ListIs(lim, c, {}, g); }
    forall b | 0 <= b < |d.hash| ensures BucketIs(d, out, b) { assert BucketIs(c, {}, b); }
  }

  lemma ShelvePlaced(lim: Limits, c: Cache, p: Ptr)
    requires Placed(lim, c, {p}, {p}) && OnActive(c, {}, p)
    ensures Placed(lim, Shelve(c, p), {}, {})
  {
    hide Bucket, NoDup;
    var d, out := Shelve(c, p), {p};
    NoDupAppend(c.free, p);
    assert forall q :: q in c.elems <==> q in d.elems;
    forall g | 0 <= g < |d.lists| ensures ListIs(lim, d, {}, g) { assert ListIs(lim, c, out, g); }
    forall b | 0 <= b < |d.hash| ensures BucketIs(d, {}, b) { assert BucketIs(c, out, b); }
  }

  // ---- looking up -----------------------------------------------------------

  /** SearchHash along a bucket: the first element with this volume and block. */
  function FirstWith(c: Cache, list: seq<Ptr>, key: Key): (r: Option<Ptr>)
    ensures r.Some? ==> r.value in list && r.value in c.elems && c.elems[r.value].key == key
    ensures r == None ==> forall p :: p in list && p in c.elems ==> c.elems[p].key != key
  {
    if list == [] then None
    else if list[0] in c.elems && c.elems[list[0]].key == key then Some(list[0])
    else FirstWith(c, list[1..], key)
  }

  function SearchHash(c: Cache, key: Key): Option<Ptr> {
    if |c.hash| == 0 then None else FirstWith(c, c.hash[Bucket(key.block, |c.hash|)], key)
  }

  /** The hash finds exactly the active element of that volume and block. */
  lemma SearchFinds(lim: Limits, c: Cache, key: Key)
    requires Placed(lim, c, {}, {})
    ensures SearchHash(c, key).Some? ==> OnActive(c, {}, SearchHash(c, key).value) && c.elems[SearchHash(c, key).value].key == key
    ensures forall p :: OnActive(c, {}, p) && c.elems[p].key == key ==> SearchHash(c, key) == Some(p)
  {
    hide Bucket, NoDup, ListIs;
    assert BucketIs(c, {}, Bucket(key.block, |c.hash|));
  }

  predicate Evictable(e: Lru) {
    !e.dirty && !e.loading && !e.flushing && e.lockCount == 0
  }

  /** Where the scan of a handle's list from its tail stops; -1 if it runs off the head. */
  function VictimAt(c: Cache, list: seq<Ptr>): (i: int)
    ensures -1 <= i < |list| && (i >= 0 ==> list[i] in c.elems && Evictable(c.elems[list[i]]))
  {
    if list == [] then -1 else
    var p := list[|list| - 1];
    if p in c.elems && Evictable(c.elems[p]) then |list| - 1 else VictimAt(c, list[..|list| - 1])
  }

  function LastEvictable(c: Cache, list: seq<Ptr>): (r: Option<Ptr>)
    ensures r.Some? ==> r.value in list && r.value in c.elems && Evictable(c.elems[r.value])
  {
    if VictimAt(c, list) < 0 then None else Some(list[VictimAt(c, list)])
  }

  /** The victim is the evictable block nearest the tail; there is none exactly when no block of the handle is evictable. */
  lemma {:induction false} VictimNearestTail(c: Cache, list: seq<Ptr>)
    requires forall i :: 0 <= i < |list| ==> list[i] in c.elems
    ensures forall j :: VictimAt(c, list) < j < |list| ==> !Evictable(c.elems[list[j]])
    ensures LastEvictable(c, list) == None <==> forall j :: 0 <= j < |list| ==> !Evictable(c.elems[list[j]])
  {
    if list != [] {
      var n := |list| - 1;
      if !Evictable(c.elems[list[n]]) { VictimNearestTail(c, list[..n]); }
    }
  }

  function Evict(c: Cache, p: Ptr): Cache
    requires p in c.elems && c.elems[p].handle < |c.lists| == |c.local| && |c.hash| > 0
  {
    RemoveHash(RemoveLRU(c, p), p)
  }

  /** GetAvailableLRU: an element from the free list, a new one, or the victim of this handle; grown is None if memory is short. */
  function GetAvailable(lim: Limits, c: Cache, h: nat, grown: Option<Ptr>): (Cache, Option<Ptr>)
    requires Placed(lim, c, {}, {}) && h < |c.lists|
  {
    var room := c.local[h] < lim.max[h] && c.blocks < lim.total;
    if room && c.free != [] then (TakeFree(c, h), Some(c.free[0]))
    else if room && grown.Some? then (Grow(c, grown.value, h), grown)
    else
      var victim := LastEvictable(c, c.lists[h]);
      assert ListIs(lim, c, {}, h);
      if victim == None then (c, None) else (Evict(c, victim.value), victim)
  }

  /** What GetAvailableLRU hands out is active but on no handle list and in no bucket, and its handle has room for it. */
  lemma AvailablePlaced(lim: Limits, c: Cache, h: nat, grown: Option<Ptr>)
    requires Placed(lim, c, {}, {}) && h < |c.lists| && (grown.Some? ==> grown.value !in c.elems)
    ensures GetAvailable(lim, c, h, grown).1 == None ==> GetAvailable(lim, c, h, grown).0 == c
    ensures var (d, got) := GetAvailable(lim, c, h, grown); got.Some? ==>
      && Placed(lim, d, {got.value}, {got.value}) && OnActive(d, {}, got.value) && got.value !in d.free
      && |d.lists| == |c.lists| && d.elems[got.value].handle == h && d.local[h] < lim.max[h]
  {
    hide Bucket, NoDup;
    var (d, got) := GetAvailable(lim, c, h, grown);
    var room := c.local[h] < lim.max[h] && c.blocks < lim.total;
    assert ListIs(lim, c, {}, h);
    if room && c.free != [] {
      TakeFreePlaced(lim, c, h);
    } else if room && grown.Some? {
      GrowPlaced(lim, c, grown.value, h);
    } else if got.Some? {
      var p := got.value;
      RemoveLRUPlaced(lim, c, {}, {}, p);
      RemoveHashPlaced(lim, RemoveLRU(c, p), {} + {p}, {}, p);
      assert {} + {p} == {p};
    }
  }

  /** ... and nothing else is touched: q's element and its place stay. */
  lemma AvailableTouchesOne(lim: Limits, c: Cache, h: nat, grown: Option<Ptr>)
    requires Placed(lim, c, {}, {}) && h < |c.lists| && (grown.Some? ==> grown.value !in c.elems)
    ensures var (d, got) := GetAvailable(lim, c, h, grown); got.Some? ==> var p := got.value;
      && d.dirtyBuffers == c.dirtyBuffers && d.elems.Keys == c.elems.Keys + {p} && p in d.elems
      && (p in c.elems ==> d.elems[p] == c.elems[p].(handle := h) && (p in c.active ==> Evictable(c.elems[p])))
      && (p !in c.elems ==> d.elems[p] == NewLru(h))
      && forall q :: q != p ==> (q in d.active <==> q in c.active) && (q in d.free <==> q in c.free) && (q in c.elems ==> d.elems[q] == c.elems[q])
  {
    hide Bucket, NoDup, BucketIs;
    var (d, got) := GetAvailable(lim, c, h, grown);
    var room := c.local[h] < lim.max[h] && c.blocks < lim.total;
    assert ListIs(lim, c, {}, h);
    if room && c.free != [] {
      assert got.value in c.free && got.value !in c.active;
      FreeTail(lim, c);
    }
  }

  /** A victim is one of this handle's own blocks. */
  lemma VictimIsOwn(lim: Limits, c: Cache, h: nat, grown: Option<Ptr>)
    requires Placed(lim, c, {}, {}) && h < |c.lists| && (grown.Some? ==> grown.value !in c.elems)
    ensures var got := GetAvailable(lim, c, h, grown).1; got.Some? && got.value in c.active && got.value in c.elems ==> c.elems[got.value].handle == h
  {
    hide Bucket, NoDup, BucketIs;
    assert ListIs(lim, c, {}, h);
    if c.free != [] { assert c.free[0] in c.free; }
  }

  lemma FreeTail(lim: Limits, c: Cache)
    requires Placed(lim, c, {}, {}) && c.free != []
    ensures forall p :: p in c.free[1..] <==> p in c.free && p != c.free[0]
  {
    hide ListIs, BucketIs;
    TailNoDup(c.free);
  }
}
