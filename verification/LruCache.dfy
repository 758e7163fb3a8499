/** The block cache as the synchronous build runs it: each routine of lru.c is a run of the protocol's steps. */
module LruCaches {
  import opened Words
  import opened LruStates
  import opened LruProtocol
  import opened LruRecency

  /** No block is being filled or written out: the state between calls of a build without threads. */
  ghost predicate Settled(w: World) {
    forall p :: Here(w, p) ==> !w.c.elems[p].loading && !w.c.elems[p].flushing
  }

  /** All but p. */
  ghost predicate SettledBut(w: World, p: Ptr) {
    forall q :: Here(w, q) && q != p ==> !w.c.elems[q].loading && !w.c.elems[q].flushing
  }

  /** A block that nobody holds and that exists on disk. */
  ghost predicate Spare(w: World, p: Ptr) {
    Here(w, p) && w.c.elems[p].lockCount == 0 && w.c.elems[p].key in w.disk
  }

  /** The i-th block from `block` on; block numbers are 32 bits wide. */
  function BlockAt(volnum: ulong, block: ulong, i: nat): Key {
    Key(volnum, Wrap(block + i))
  }

  class LruCache {
    const lim: Limits
    const reliable: bool  // no block on disk reports an I/O error
    var Elems: map<Ptr, Lru>
    var ListHead: seq<Ptr>
    var LRUFreeHead: seq<Ptr>
    var LRUList: seq<seq<Ptr>>
    var LocalLRUBlocks: seq<nat>
    var LRUBlockHash: seq<seq<Ptr>>
    var LRUBlocks: nat
    var LRUDirtyBuffers: nat
    var Disk: map<Key, Block>
    var NextElement: nat
    ghost var Logical: map<Key, Block>

    ghost function C(): Cache
      reads this
    {
      Cache(Elems, ListHead, LRUFreeHead, LRUList, LocalLRUBlocks, LRUBlockHash, LRUBlocks, LRUDirtyBuffers)
    }

    ghost function View(): (w: World)
      reads this
      ensures w.c == C() && w.disk == Disk && w.logical == Logical
    {
      World(C(), Disk, Logical)
    }

    ghost predicate Steady()
      reads this
      ensures Steady() ==> Placed(lim, C(), {}, {}) && Inv(lim, View())
    {
      Inv(lim, View()) && forall p :: p in Elems ==> p < NextElement
    }

    ghost predicate Valid()
      reads this
      ensures Valid() ==> Steady() && Inv(lim, View()) && Settled(View())
    {
      Steady() && Settled(View())
    }

    /** InitializeLRU: empty lists over a disk. */
    constructor (lim: Limits, buckets: nat, disk: map<Key, Block>, reliable: bool)
      requires buckets > 0
      ensures Valid() && this.lim == lim && this.reliable == reliable && Disk == disk && Fresh(lim, View())
      ensures |LRUList| == |lim.max| && Logical == disk && forall p :: Locks(View(), p) == (0, 0)
      ensures forall h :: 0 <= h < |lim.max| ==> (Roomy(lim, View(), h) <==> lim.ample && lim.max[h] > 0 && lim.total > 0)
    {
      this.lim, this.reliable := lim, reliable;
      Elems, ListHead, LRUFreeHead := map[], [], [];
      LRUList, LocalLRUBlocks, LRUBlockHash := seq(|lim.max|, _ => []), seq(|lim.max|, _ => 0), seq(buckets, _ => []);
      LRUBlocks, LRUDirtyBuffers, NextElement, Disk, Logical := 0, 0, 0, disk, disk;
      new;
      assert Fresh(lim, View());
      FreshInv(lim, View());
    }

    // ---- nwvp: the disk -------------------------------------------------------

    /** nwvp_vpartition_block_read */
    method BlockRead(key: Key) returns (data: Option<Block>)
      ensures data.Some? ==> key in Disk && data.value == Disk[key]
      ensures reliable && key in Disk ==> data.Some?
    {
      var ok: bool := *;
      return if key in Disk && (reliable || ok) then Some(Disk[key]) else None;
    }

    /** nwvp_vpartition_block_write; an error leaves the first n bytes written. */
    method BlockWrite(key: Key, data: Block) returns (ok: bool, n: nat)
      modifies this`Disk
      ensures n <= IO_BLOCK_SIZE && (ok ==> n == IO_BLOCK_SIZE) && (ok || n > 0 ==> key in old(Disk))
      ensures Disk == if key in old(Disk) then old(Disk)[key := PartlyWritten(old(Disk)[key], data, n)] else old(Disk)
      ensures reliable && key in old(Disk) ==> ok
    {
      var k: nat := *;
      if key !in Disk { return false, 0; }
      if reliable || k > IO_BLOCK_SIZE { k := IO_BLOCK_SIZE; }
      Disk := Disk[key := PartlyWritten(Disk[key], data, k)];
      return k == IO_BLOCK_SIZE, k;
    }

    // ---- the lists ------------------------------------------------------------

    method RemoveLRU(p: Ptr)
      requires p in Elems && Elems[p].handle < |LRUList| == |LocalLRUBlocks|
      modifies this`LRUList, this`LocalLRUBlocks
      ensures C() == LruStates.RemoveLRU(old(C()), p)
    {
      var h := Elems[p].handle;
      LRUList := LRUList[h := Without(LRUList[h], p)];
      if LocalLRUBlocks[h] > 0 { LocalLRUBlocks := LocalLRUBlocks[h := LocalLRUBlocks[h] - 1]; }
    }

    method InsertLRU(p: Ptr, top: bool)
      requires p in Elems && Elems[p].handle < |LRUList| == |LocalLRUBlocks|
      modifies this`LRUList, this`LocalLRUBlocks
      ensures C() == LruStates.InsertLRU(old(C()), p, top)
    {
      var h := Elems[p].handle;
      LRUList := LRUList[h := if top then [p] + LRUList[h] else LRUList[h] + [p]];
      LocalLRUBlocks := LocalLRUBlocks[h := LocalLRUBlocks[h] + 1];
    }

    method Requeue(h: nat, p: Ptr)
      requires p in Elems && Elems[p].handle < |LRUList| == |LocalLRUBlocks|
      modifies this`LRUList, this`LocalLRUBlocks
      ensures C() == LruProtocol.Requeue(old(C()), h, p)
    {
      RemoveLRU(p);
      InsertLRU(p, Elems[p].handle == h);
    }

    method RemoveHash(p: Ptr)
      requires p in Elems && |LRUBlockHash| > 0
      modifies this`LRUBlockHash
      ensures C() == LruStates.RemoveHash(old(C()), p)
    {
      var b := Bucket(Elems[p].key.block, |LRUBlockHash|);
      LRUBlockHash := LRUBlockHash[b := Without(LRUBlockHash[b], p)];
    }

    method AddToHash(p: Ptr)
      requires p in Elems && |LRUBlockHash| > 0
      modifies this`LRUBlockHash
      ensures C() == LruStates.AddToHash(old(C()), p)
    {
      var b := Bucket(Elems[p].key.block, |LRUBlockHash|);
      LRUBlockHash := LRUBlockHash[b := LRUBlockHash[b] + [p]];
    }

    /** RemoveListHead, state = L_FREE, volnum = -1, PutFreeLRU */
    method Shelve(p: Ptr)
      requires p in Elems
      modifies this`Elems, this`ListHead, this`LRUFreeHead
      ensures C() == LruStates.Shelve(old(C()), p) && Elems.Keys == old(Elems.Keys)
    {
      Elems := Elems[p := Elems[p].(valid := false, uptodate := false, dirty := false, flushing := false, loading := false,
                                    modified := false, submitted := false, loaded := false)];
      ListHead := Without(ListHead, p);
      LRUFreeHead := LRUFreeHead + [p];
    }

    /** SearchHash: down the bucket until volume and block match. */
    method SearchHash(key: Key) returns (r: Option<Ptr>)
      requires Steady()
      ensures r == LruStates.SearchHash(C(), key)
      ensures r.Some? ==> r.value in Elems && Here(View(), r.value) && Elems[r.value].key == key
    {
      hide Inv, Bucket;
      SearchFinds(lim, C(), key);
      hide Placed;
      var b := Bucket(key.block, |LRUBlockHash|);
      var i := 0;
      while i < |LRUBlockHash[b]|
        invariant i <= |LRUBlockHash[b]|
        invariant FirstWith(C(), LRUBlockHash[b][i..], key) == LruStates.SearchHash(C(), key)
      {
        var p := LRUBlockHash[b][i];
        if p in Elems && Elems[p].key == key { return Some(p); }
        i := i + 1;
      }
      return None;
    }

    /** From the tail of the handle's list towards its head, to the first block that can go. */
    method Victim(h: nat) returns (got: Option<Ptr>)
      requires Steady() && h < |LRUList|
      ensures got == LastEvictable(C(), LRUList[h])
      ensures got.Some? ==> got.value in Elems && Elems[got.value].handle < |LRUList| == |LocalLRUBlocks| && |LRUBlockHash| > 0
    {
      hide Inv, Bucket, ListIs, BucketIs, Evictable;
      SizesMatch(lim, C(), h);
      hide Placed;
      var list, elems := LRUList[h], Elems;
      ghost var c := C();
      var i := |list|;
      assert list[..i] == list;
      while i > 0 && !Evictable(elems[list[i - 1]])
        invariant i <= |list| && VictimAt(c, list[..i]) == VictimAt(c, list)
      {
        assert list[..i][..i - 1] == list[..i - 1];
        i := i - 1;
      }
      if i == 0 { return None; }
      return Some(list[i - 1]);
    }

    /** GetFreeLRU and InsertListHead. */
    method TakeFree(h: nat) returns (p: Ptr)
      requires LRUFreeHead != [] && LRUFreeHead[0] in Elems
      modifies this`Elems, this`LRUFreeHead, this`ListHead
      ensures p == old(LRUFreeHead)[0] && C() == LruStates.TakeFree(old(C()), h) && Elems.Keys == old(Elems.Keys)
    {
      p := LRUFreeHead[0];
      Elems := Elems[p := Elems[p].(handle := h)];
      LRUFreeHead, ListHead := LRUFreeHead[1..], ListHead + [p];
    }

    /** AllocateLRUElement, when there is memory. */
    method Grow(h: nat) returns (p: Ptr)
      modifies this`Elems, this`NextElement, this`ListHead, this`LRUBlocks
      ensures p == old(NextElement) && NextElement == p + 1 && C() == LruStates.Grow(old(C()), p, h) && Elems.Keys == old(Elems.Keys) + {p}
    {
      p := NextElement;
      Elems, NextElement := Elems[p := NewLru(h)], NextElement + 1;
      ListHead, LRUBlocks := ListHead + [p], LRUBlocks + 1;
    }

    /** GetAvailableLRU: the free list, then memory, then the evictable block nearest the tail of the handle's list. */
    method GetAvailableLRU(h: nat) returns (got: Option<Ptr>, ghost grown: Option<Ptr>)
      requires Steady() && h < |LRUList|
      modifies this
      ensures grown.Some? ==> grown.value !in old(Elems)
      ensures (C(), got) == GetAvailable(lim, old(C()), h, grown)
      ensures got == None ==> !Roomy(lim, old(View()), h)
      ensures Disk == old(Disk) && Logical == old(Logical) && forall p :: p in Elems ==> p < NextElement
    {
      hide Inv, Bucket, ListIs, BucketIs, LastEvictable, Without, NoDup, LruStates.TakeFree, LruStates.Grow;
      grown := None;
      SizesMatch(lim, C(), h);
      hide Placed;
      if LocalLRUBlocks[h] < lim.max[h] && LRUBlocks < lim.total {
        if LRUFreeHead != [] {
          var p := TakeFree(h);
          return Some(p), None;
        }
        var memory: bool := *;
        if memory || lim.ample {
          var p := Grow(h);
          return Some(p), Some(p);
        }
      }
      got := Victim(h);
      if got.Some? {
        RemoveLRU(got.value);
        RemoveHash(got.value);
      }
    }

    /** FillBlock up to the unlock. */
    method StartFill(h: nat, key: Key) returns (got: Option<Ptr>)
      requires Valid() && h < |LRUList| && LruStates.SearchHash(C(), key) == None
      modifies this
      ensures Logical == old(Logical) && Disk == old(Disk) && |LRUList| == old(|LRUList|) && Steady()
      ensures got == None ==> Valid() && View() == old(View()) && NoneEvictable(C(), LRUList[h]) && !Roomy(lim, View(), h)
      ensures got.Some? ==> Begun(lim, old(View()), View(), got.value, key, h) && OtherHandles(old(View()), View(), h)
    {
      hide Inv, Placed, Bucket, Quietly, GetAvailable, Begun, Settled, SettledBut, Without, OtherHandles;
      ghost var w := View();
      ghost var grown: Option<Ptr>;
      got, grown := GetAvailableLRU(h);
      FillBegins(lim, w, h, key, grown);
      if got == None { NoVictim(lim, w.c, h, grown); }
      if got.Some? {
        var p := got.value;
        Elems := Elems[p := Loading(Elems[p], key)];
        AddToHash(p);
        InsertLRU(p, true);
        BegunFits(lim, w, View(), p, key, h);
      }
    }

    /** FillBlock after a read that failed. */
    method GiveUp(p: Ptr, ghost w: World)
      requires Steady() && Here(View(), p) && Elems[p].loading && SettledBut(View(), p) && Quietly(lim, w, View())
      modifies this
      ensures Valid() && Quietly(lim, w, View()) && Logical == old(Logical) && Disk == old(Disk) && |LRUList| == old(|LRUList|)
    {
      hide Inv, Placed, Bucket, Quietly, Settled, SettledBut, Without;
      FillGivesUp(lim, w, View(), p);
      RemoveLRU(p);
      RemoveHash(p);
      Shelve(p);
    }

    /** The read that a fill waits for: the block comes in, or the fill is given up. */
    method ReadIn(p: Ptr, h: nat, key: Key, ghost w: World) returns (ok: bool)
      requires Steady() && Begun(lim, w, View(), p, key, h)
      modifies this
      ensures Logical == old(Logical) && Disk == old(Disk) && |LRUList| == old(|LRUList|) && forall q :: q in Elems ==> q < NextElement
      ensures !ok ==> Valid() && Quietly(lim, w, View())
      ensures ok ==> Begun(lim, w, View(), p, key, h) && key in Disk && p in Elems && Elems[p].loaded
      ensures ok ==> p in old(Elems) && View() == old(View()).(c := Put(old(C()), p, Elems[p]))
      ensures reliable && key in Disk ==> ok
    {
      hide Inv, Placed, Bucket, Quietly, Settled, SettledBut, Begun;
      BegunFits(lim, w, View(), p, key, h);
      var data := BlockRead(key);
      if data == None {
        GiveUp(p, w);
        return false;
      }
      FillComesIn(lim, w, View(), p, key, h);
      Elems := Elems[p := Elems[p].(buffer := data.value, loaded := true)];
      return true;
    }

    /** FillBlock: an element for the block, read in from disk if `fill`; mid is the moment before it is marked valid. */
    method FillBlock(h: nat, key: Key, fill: bool) returns (got: Option<Ptr>, ghost mid: World)
      requires Valid() && h < |LRUList| && LruStates.SearchHash(C(), key) == None
      modifies this
      ensures Logical == old(Logical) && Disk == old(Disk) && |LRUList| == old(|LRUList|)
      ensures forall p :: p in Elems ==> p < NextElement
      ensures got == None ==> Valid() && Quietly(lim, old(View()), View())
      ensures got == None && (fill ==> reliable && key in Disk) ==>
        View() == old(View()) && NoneEvictable(C(), LRUList[h]) && !Roomy(lim, View(), h)
      ensures got.Some? ==> Quietly(lim, old(View()), mid) && Half(lim, mid, View(), got.value, key, h, fill)
      ensures got.Some? ==> OtherHandles(old(View()), View(), h)
    {
      hide Inv, Placed, Bucket, Quietly, Begun, Settled, SettledBut, LruStates.SearchHash, OtherHandles, LruCache.Valid, NoneEvictable;
      ghost var w := View();
      got := StartFill(h, key);
      mid := View();
      if got == None {
        QuietlySelf(lim, w);
        return;
      }
      var p := got.value;
      BegunFits(lim, w, mid, p, key, h);
      if fill {
        ghost var v := mid;
        var ok := ReadIn(p, h, key, w);
        mid := View();
        if !ok { return None, mid; }
        BegunFits(lim, w, mid, p, key, h);
        OthersStay(w, v, p, h, Elems[p]);
      }
      OthersStay(w, mid, p, h, Filled(Elems[p], NoHold));
      Elems := Elems[p := Filled(Elems[p], NoHold)];
    }

    // ---- writing back ---------------------------------------------------------

    /** A dirty block written out: FlushLRU and SyncLRUBlocks between finding it and going on. */
    method WriteBack(p: Ptr, sync: bool) returns (ok: bool)
      requires Valid() && Here(View(), p) && Elems[p].dirty && Elems[p].valid && !Elems[p].flushing
      requires sync || Elems[p].lockCount == 0
      modifies this
      ensures Valid() && Quietly(lim, old(View()), View()) && FlushedFrom(old(View()), View())
      ensures p in Elems && (ok ==> !Elems[p].dirty) && forall q :: q in old(Elems) && q != p ==> Elems[q] == old(Elems)[q]
      ensures reliable && old(Elems[p].key) in old(Disk) ==> ok
    {
      hide Inv, Placed, Quietly, Settled, PartlyWritten, FlushedFrom, FirstBytes;
      ghost var w := View();
      Elems := Elems[p := Elems[p].(flushing := true, modified := false, written := {})];
      ghost var v := View();
      var n: nat;
      ok, n := BlockWrite(Elems[p].key, Elems[p].buffer);
      Elems := Elems[p := Elems[p].(written := FirstBytes(n))];
      WriteGoesOut(lim, w, v, p, sync, n, ok);
      assert View() == PartlyFlushed(v, p, n);
      EndWrite(p, ok);
    }

    /** The write is over: the block is clean if all of it went out and nobody has changed it since. */
    method EndWrite(p: Ptr, ok: bool)
      requires p in Elems && Elems[p].dirty && (ok ==> !Elems[p].modified)
      modifies this`Elems, this`LRUDirtyBuffers
      ensures var e := old(Elems)[p]; View() == old(View()).(c := Put(Count(old(C()), e, Flushed(e, ok)), p, Flushed(e, ok)))
    {
      Elems := Elems[p := Flushed(Elems[p], ok)];
      if ok && LRUDirtyBuffers > 0 { LRUDirtyBuffers := LRUDirtyBuffers - 1; }
    }

    /** FlushLRU: down the active list, writing back every dirty block that nobody holds. */
    method FlushLRU()
      requires Valid()
      modifies this
      ensures Valid() && Quietly(lim, old(View()), View()) && FlushedFrom(old(View()), View())
      ensures reliable ==> forall p :: Spare(View(), p) ==> !Elems[p].dirty
      ensures reliable && NobodyHolds(old(View())) ==> forall key :: key in Disk ==> At(Logical, key) == At(Disk, key)
      ensures reliable && NobodyHolds(old(View())) && (forall p :: Here(View(), p) ==> Elems[p].key in Disk) ==> LRUDirtyBuffers == 0
    {
      hide Inv, Placed, Quietly, FlushedFrom;
      ghost var w := View();
      var i := 0;
      QuietlySelf(lim, w);
      FlushedSelf(w);
      while i < |ListHead|
        invariant Valid() && Quietly(lim, w, View()) && FlushedFrom(w, View()) && ListHead == w.c.active && i <= |ListHead|
        invariant reliable ==> forall k :: 0 <= k < i ==> CleanIfSpare(View(), ListHead[k])
      {
        var p := ListHead[i];
        ActiveIsHere(lim, View(), i);
        ghost var v := View();
        if Elems[p].dirty && Elems[p].valid && Elems[p].lockCount == 0 && !Elems[p].flushing {
          var ok := WriteBack(p, false);
          QuietlyJoin(lim, w, v, View());
          FlushedTwice(w, v, View());
          SpareStays(v, View(), i);
          SpareWas(v, View(), p);
        }
        i := i + 1;
      }
      if reliable { FlushedAll(lim, w, View()); }
    }

    /** SyncLRUBlocks: a run of blocks, whether or not somebody holds them. */
    method SyncLRUBlocks(volnum: ulong, block: ulong, blocks: nat) returns (code: ulong)
      requires Valid()
      modifies this
      ensures Valid() && Quietly(lim, old(View()), View()) && FlushedFrom(old(View()), View())
      ensures blocks == 0 ==> code == EOF && View() == old(View())
      ensures blocks > 0 && code == 0 ==> forall i :: 0 <= i < blocks ==> CleanAt(View(), BlockAt(volnum, block, i))
      ensures blocks > 0 && reliable && (forall i :: 0 <= i < blocks ==> BlockAt(volnum, block, i) in Disk) ==> code == 0
    {
      hide Inv, Placed, Quietly, FlushedFrom, LruStates.SearchHash, BlockAt, CleanAt;
      ghost var w := View();
      QuietlySelf(lim, w);
      if blocks == 0 {
        FlushedSelf(w);
        return EOF;
      }
      var i := 0;
      code := 0;
      FlushedSelf(w);
      while i < blocks
        invariant Valid() && Quietly(lim, w, View()) && FlushedFrom(w, View()) && i <= blocks
        invariant code == 0 ==> forall k :: 0 <= k < i ==> CleanAt(View(), BlockAt(volnum, block, k))
        invariant reliable && code != 0 ==> exists k :: 0 <= k < i && BlockAt(volnum, block, k) !in w.disk
      {
        var key := BlockAt(volnum, block, i);
        var lru := SearchHash(key);
        ghost var v := View();
        FoundOnly(lim, v, key);
        CleanStays(w, v);
        if lru.Some? && Elems[lru.value].dirty && Elems[lru.value].valid && !Elems[lru.value].flushing {
          var ok := WriteBack(lru.value, true);
          if !ok { code := DISK_IO_ERROR; }
          QuietlyJoin(lim, w, v, View());
          FlushedTwice(w, v, View());
          CleanStays(v, View());
          if ok { FoundCleaned(lim, v, View(), lru.value); }
        }
        i := i + 1;
      }
      CleanStays(w, View());
    }

    // ---- reading and releasing ------------------------------------------------

    /** PerformBlockReadAhead: fills the blocks that are not in the cache; a failure is nobody's business. The last block is cached then,
        unless the handle could not be given an element. */
    method PerformBlockReadAhead(h: nat, volnum: ulong, block: ulong, blocks: nat)
      requires Valid() && h < |LRUList|
      modifies this
      ensures Valid() && Quietly(lim, old(View()), View()) && Disk == old(Disk) && |LRUList| == old(|LRUList|)
      ensures reliable && AllOn(Disk, Key(volnum, block), 0, blocks) ==> StocksKept(lim, old(View()), View(), h)
      ensures blocks > 0 && reliable && AllOn(Disk, Key(volnum, block), 0, blocks) ==> GotOrFull(lim, View(), h, BlockAt(volnum, block, blocks - 1))
    {
      hide Inv, Placed, Quietly, LruStates.SearchHash, BlockAt, StocksKept, Half, Settled, OtherHandles, NoneEvictable, Roomy;
      ghost var w := View();
      QuietlySelf(lim, w);
      StocksSelf(lim, w, h);
      var i := 0;
      while i < blocks
        invariant i <= blocks && Valid() && Quietly(lim, w, View()) && Disk == w.disk && |LRUList| == |w.c.lists|
        invariant reliable && AllOn(Disk, Key(volnum, block), 0, blocks) ==> StocksKept(lim, w, View(), h)
        invariant i > 0 && reliable && AllOn(Disk, Key(volnum, block), 0, blocks) ==> GotOrFull(lim, View(), h, BlockAt(volnum, block, i - 1))
      {
        var key := BlockAt(volnum, block, i);
        var lru := SearchHash(key);
        if lru == None {
          ghost var v := View();
          ghost var mid: World;
          lru, mid := FillBlock(h, key, true);
          StocksSelf(lim, v, h);
          if lru.Some? {
            HalfReadAhead(lim, v, mid, View(), lru.value, key, h);
            HereIsFound(lim, View(), lru.value);
          }
          QuietlyJoin(lim, w, v, View());
          if reliable && AllOn(Disk, Key(volnum, block), 0, blocks) { StocksTwice(lim, w, v, View(), h); }
        }
        i := i + 1;
      }
    }

    /** One round of ReadLRU: find or fill the block, and lock it. */
    method TryRead(h: nat, key: Key, fill: bool, writing: bool, ghost w: World) returns (r: Option<Ptr>)
      requires Valid() && h < |LRUList| && (!fill ==> writing) && Inv(lim, w) && Quietly(lim, w, View())
      modifies this
      ensures Valid() && Logical == w.logical && Disk == old(Disk) && |LRUList| == old(|LRUList|)
      ensures r == None ==> Quietly(lim, w, View())
      ensures r == None && reliable && key in Disk ==> View() == old(View()) && NoneEvictable(C(), LRUList[h]) && !Roomy(lim, View(), h)
      ensures r.Some? ==> Reaches(lim, w, View()) && Acquired(w, View(), r.value, key, fill, writing)
      ensures r.Some? && key in Disk ==> StocksHeld(lim, old(View()), View(), r.value, h)
    {
      hide Inv, Placed, Quietly, LruStates.SearchHash, Half, Settled, Acquired, NoneEvictable, StocksHeld, OtherHandles;
      ghost var v := View();
      r := SearchHash(key);
      FoundOnly(lim, v, key);
      QuietlyReaches(lim, w, v);
      if r.Some? {
        var p := r.value;
        LockFound(lim, w, v, p, fill, writing);
        HitHolds(lim, v, p, h, writing);
        Elems := Elems[p := Locked(Elems[p], writing)];
        return;
      }
      ghost var mid: World;
      r, mid := FillBlock(h, key, fill);
      if r == None {
        QuietlyJoin(lim, w, v, View());
        return;
      }
      var p := r.value;
      LockFilled(lim, w, v, mid, View(), p, key, h, fill, writing);
      if key in Disk { FilledHolds(lim, v, mid, View(), p, key, h, fill, writing); }
      Elems := Elems[p := Locked(Elems[p], writing)];
    }

    /** ReadLRU: the block, found or filled, with a lock on it. A block that cannot be had makes the routine flush the cache
        and try again; patience is how often. */
    method ReadLRU(h: nat, key: Key, fill: bool, readAhead: nat, writing: bool, patience: nat) returns (r: Option<Ptr>)
      requires Valid() && h < |LRUList| && (!fill ==> writing)
      modifies this
      ensures Valid() && Reaches(lim, old(View()), View()) && Logical == old(Logical)
      ensures Disk.Keys == old(Disk.Keys) && |LRUList| == old(|LRUList|)
      ensures if r == None then SameLocks(old(View()), View()) else Acquired(old(View()), View(), r.value, key, fill, writing)
      ensures patience >= 2 && reliable && key in old(Disk) && Supplied(lim, old(View()), h) && AllOn(old(Disk), key, 1, readAhead) ==> r.Some?
      ensures reliable && key in old(Disk) && AllOn(old(Disk), key, 1, readAhead) ==>
        if r == None then StocksKept(lim, old(View()), View(), h) else StocksHeld(lim, old(View()), View(), r.value, h)
    {
      hide Inv, Placed, Quietly, LruStates.SearchHash, BlockAt, AllOn, Wrap, Stocked, SameLocks, Settled, FlushedFrom, Acquired,
        Locks, NoneEvictable, Reaches, StocksHeld, StocksKept, Roomy;
      ghost var w := View();
      QuietlySelf(lim, w);
      StocksSelf(lim, w, h);
      if fill && readAhead > 0 {
        ShiftBlocks(Disk, key, readAhead);
        PerformBlockReadAhead(h, key.volnum, Wrap(key.block + 1), readAhead - 1);
      }
      ghost var kept := reliable && key in Disk && AllOn(w.disk, key, 1, readAhead);
      if kept { StocksApply(lim, w, View(), h); }
      ghost var live := kept && Supplied(lim, w, h);
      var round := 0;
      while round < patience
        invariant Valid() && Quietly(lim, w, View()) && Disk.Keys == w.disk.Keys && |LRUList| == |w.c.lists|
        invariant kept ==> key in Disk && StocksKept(lim, w, View(), h)
        invariant live ==> Supplied(lim, View(), h) && round < 2
        invariant live && round == 1 ==> forall p :: Spare(View(), p) ==> !Elems[p].dirty
      {
        ghost var v := View();
        r := TryRead(h, key, fill, writing, w);
        if r.Some? {
          if kept { StocksThen(lim, w, v, View(), r.value, h); }
          return;
        }
        if live && round == 1 { StockIsEvictable(lim, v, h); }
        ghost var u := View();
        FlushLRU();
        QuietlyJoin(lim, w, u, View());
        StockStays(lim, u, View(), h);
        if kept {
          StocksTwice(lim, w, u, View(), h);
          StocksApply(lim, w, View(), h);
        }
        round := round + 1;
      }
      QuietlyReaches(lim, w, View());
      return None;
    }

    /** ReleaseLRU: to the head of the element's list for its own handle, to the tail for another. */
    method ReleaseLRU(h: nat, p: Ptr)
      requires Valid() && Here(View(), p) && Elems[p].lockCount > Elems[p].writers
      modifies this
      ensures Valid() && Steps(lim, old(View()), ReleaseClean(h, p), View())
      ensures ListsMoved(old(LRUList), LRUList, old(Elems)[p].handle, p, old(Elems)[p].handle == h)
    {
      hide Inv, Placed, Without, Settled, ListsMoved, LruStates.SearchHash, Filling, LruStates.Shelve, Evict, LruProtocol.Requeue;
      ghost var w := View();
      OnItsHandle(lim, C(), p);
      ReleaseSettles(lim, w, ReleaseClean(h, p));
      Elems := Elems[p := Released(Elems[p])];
      Requeue(h, p);
    }

    /** ReleaseDirtyLRU: the same, and the block is now dirty. */
    method ReleaseDirtyLRU(h: nat, p: Ptr)
      requires Valid() && Here(View(), p) && Elems[p].lockCount > 0 && Elems[p].writers > 0
      modifies this
      ensures Valid() && Steps(lim, old(View()), ReleaseDirty(h, p), View())
      ensures ListsMoved(old(LRUList), LRUList, old(Elems)[p].handle, p, old(Elems)[p].handle == h)
    {
      hide Inv, Placed, Without, Settled, ListsMoved, LruStates.SearchHash, Filling, LruStates.Shelve, Evict, LruProtocol.Requeue;
      ghost var w := View();
      OnItsHandle(lim, C(), p);
      ReleaseSettles(lim, w, ReleaseDirty(h, p));
      if !Elems[p].dirty { LRUDirtyBuffers := LRUDirtyBuffers + 1; }
      Elems := Elems[p := Dirtied(Elems[p])];
      Logical := Logical[Elems[p].key := Elems[p].buffer];
      Requeue(h, p);
    }

    /** A holder that may write does. */
    method Store(p: Ptr, data: Block)
      requires Valid() && Here(View(), p) && Elems[p].writers > 0
      modifies this`Elems
      ensures Valid() && Steps(lim, old(View()), LruProtocol.Store(p, data), View())
    {
      hide Inv, Placed, LruStates.SearchHash, Filling, LruProtocol.Requeue, LruStates.Shelve, Evict;
      StepKeepsInv(lim, View(), LruProtocol.Store(p, data));
      Elems := Elems[p := Elems[p].(buffer := data)];
    }
  }

  /** Releasing a block disturbs no fill and no flush. */
  lemma ReleaseSettles(lim: Limits, w: World, step: Step)
    requires Inv(lim, w) && Settled(w) && Enabled(lim, w, step) && (step.ReleaseClean? || step.ReleaseDirty?)
    ensures Inv(lim, Next(lim, w, step)) && Settled(Next(lim, w, step)) && Next(lim, w, step).c.elems.Keys == w.c.elems.Keys
    ensures var g := w.c.elems[step.p].handle; ListsMoved(w.c.lists, Next(lim, w, step).c.lists, g, step.p, g == step.h)
  {
    hide Inv, Placed, LruStates.SearchHash, Filling, LruStates.Shelve, Evict, RemoveLRU, InsertLRU, ListsMoved;
    StepKeepsInv(lim, w, step);
    var e := w.c.elems[step.p];
    RequeueMoves(lim, w.c, Put(w.c, step.p, Released(e)), step.h, step.p);
    RequeueMoves(lim, w.c, Put(Count(w.c, e, Dirtied(e)), step.p, Dirtied(e)), step.h, step.p);
  }

  ghost predicate NoneEvictable(c: Cache, list: seq<Ptr>) {
    forall p :: p in list && p in c.elems ==> !Evictable(c.elems[p])
  }

  lemma NoVictim(lim: Limits, c: Cache, h: nat, grown: Option<Ptr>)
    requires Placed(lim, c, {}, {}) && h < |c.lists| && GetAvailable(lim, c, h, grown).1 == None
    ensures NoneEvictable(c, c.lists[h])
  {
    SizesMatch(lim, c, h);
    VictimNearestTail(c, c.lists[h]);
    hide Placed;
    forall p | p in c.lists[h] && p in c.elems ensures !Evictable(c.elems[p]) {
      var i :| 0 <= i < |c.lists[h]| && c.lists[h][i] == p;
    }
  }

  lemma SizesMatch(lim: Limits, c: Cache, h: nat)
    requires Placed(lim, c, {}, {}) && h < |c.lists|
    ensures |c.lists| == |c.local| == |lim.max| && |c.hash| > 0
    ensures c.free != [] ==> c.free[0] in c.elems
    ensures forall i :: 0 <= i < |c.lists[h]| ==> c.lists[h][i] in c.elems && c.elems[c.lists[h][i]].handle == h
  {
    assert ListIs(lim, c, {}, h);
    assert c.free != [] ==> c.free[0] in c.free;
    assert forall i :: 0 <= i < |c.lists[h]| ==> c.lists[h][i] in c.lists[h];
  }

  /** The block is in place and loaded as far as asked, and v is mid with it marked valid. */
  ghost predicate Half(lim: Limits, mid: World, v: World, p: Ptr, key: Key, h: nat, fill: bool) {
    && Inv(lim, mid) && SettledBut(mid, p) && Here(mid, p) && mid.c.elems[p].key == key && mid.c.elems[p].loading
    && mid.c.elems[p].handle == h && (fill ==> mid.c.elems[p].loaded && key in mid.disk)
    && v == mid.(c := Put(mid.c, p, Filled(mid.c.elems[p], NoHold)))
  }

  /** From w the fill of `key` into p has begun. */
  ghost predicate Begun(lim: Limits, w: World, v: World, p: Ptr, key: Key, h: nat) {
    && Inv(lim, v) && Quietly(lim, w, v) && SettledBut(v, p) && Here(v, p)
    && v.c.elems[p].key == key && v.c.elems[p].loading && v.c.elems[p].handle == h
  }

  lemma BegunFits(lim: Limits, w: World, v: World, p: Ptr, key: Key, h: nat)
    requires Begun(lim, w, v, p, key, h)
    ensures Inv(lim, v) && p in v.c.elems && v.c.elems[p].key == key && v.c.elems[p].loading && v.c.elems[p].handle == h
    ensures v.c.elems[p].handle < |v.c.lists| == |v.c.local| && |v.c.hash| > 0 && Quietly(lim, w, v) && SettledBut(v, p) && Here(v, p)
  {
    hide Sane, Quietly;
    PlacedApart(lim, v);
  }

  /** What FillBlock does to the element it got. */
  ghost function Started(w: World, d: Cache, p: Ptr, key: Key): World
    requires p in d.elems && d.elems[p].handle < |d.lists| == |d.local| && |d.hash| > 0
  {
    w.(c := LruStates.InsertLRU(LruStates.AddToHash(Put(d, p, Loading(d.elems[p], key)), p), p, true))
  }

  lemma FillBegins(lim: Limits, w: World, h: nat, key: Key, grown: Option<Ptr>)
    requires Inv(lim, w) && Settled(w) && h < |w.c.lists| && SearchHash(w.c, key) == None && (grown.Some? ==> grown.value !in w.c.elems)
    ensures var (d, got) := GetAvailable(lim, w.c, h, grown);
      if got == None then d == w.c else
        && got.value in d.elems && d.elems[got.value].handle < |d.lists| == |d.local| && |d.hash| > 0 && |d.lists| == |w.c.lists|
        && Begun(lim, w, Started(w, d, got.value, key), got.value, key, h) && OtherHandles(w, Started(w, d, got.value, key), h)
  {
    hide GetAvailable, SearchHash, Quietly, Inv, Begun, OtherHandles;
    AvailablePlaced(lim, w.c, h, grown);
    var (d, got) := GetAvailable(lim, w.c, h, grown);
    if got.Some? {
      SizesOf(lim, d, got.value);
      OthersUntouched(lim, w, h, key, grown, d, got.value);
      hide Placed;
      FillRuns(lim, w, h, key, grown, d, got.value);
    }
  }

  /** Blocks of other handles stay as they are. */
  ghost predicate OtherHandles(w: World, v: World, h: nat) {
    v.disk == w.disk && forall q :: Here(w, q) && w.c.elems[q].handle != h ==> Here(v, q) && v.c.elems[q] == w.c.elems[q]
  }

  lemma OthersUntouched(lim: Limits, w: World, h: nat, key: Key, grown: Option<Ptr>, d: Cache, p: Ptr)
    requires Placed(lim, w.c, {}, {}) && h < |w.c.lists| && (grown.Some? ==> grown.value !in w.c.elems)
    requires GetAvailable(lim, w.c, h, grown) == (d, Some(p))
    requires p in d.elems && d.elems[p].handle < |d.lists| == |d.local| && |d.hash| > 0
    ensures OtherHandles(w, Started(w, d, p, key), h)
  {
    hide GetAvailable, Placed, Bucket;
    AvailableTouchesOne(lim, w.c, h, grown);
    VictimIsOwn(lim, w.c, h, grown);
  }

  lemma FillRuns(lim: Limits, w: World, h: nat, key: Key, grown: Option<Ptr>, d: Cache, p: Ptr)
    requires Inv(lim, w) && Settled(w) && h < |w.c.lists| && SearchHash(w.c, key) == None && (grown.Some? ==> grown.value !in w.c.elems)
    requires GetAvailable(lim, w.c, h, grown) == (d, Some(p))
    requires p in d.active && p in d.elems && d.elems[p].handle < |d.lists| == |d.local| && |d.hash| > 0
    ensures Begun(lim, w, Started(w, d, p, key), p, key, h)
  {
    hide GetAvailable, SearchHash, Quietly, Sane, Bucket, Inv, Placed;
    var step := FillStart(h, key, grown);
    FillingStaysSane(lim, w, h, key, grown);
    AvailableTouchesOne(lim, w.c, h, grown);
    StepKeepsInv(lim, w, step);
    QuietlyStep(lim, w, step);
  }

  lemma SizesOf(lim: Limits, d: Cache, p: Ptr)
    requires Placed(lim, d, {p}, {p})
    ensures |d.lists| == |d.local| && |d.hash| > 0
  {
  }

  lemma FillGivesUp(lim: Limits, w: World, v: World, p: Ptr)
    requires Inv(lim, v) && Quietly(lim, w, v) && SettledBut(v, p) && Here(v, p) && v.c.elems[p].loading
    ensures v.c.elems[p].handle < |v.c.lists| == |v.c.local| && |v.c.hash| > 0
    ensures var u := v.(c := LruStates.Shelve(Evict(v.c, p), p)); Inv(lim, u) && Quietly(lim, w, u) && Settled(u)
  {
    hide Placed, Sane, Quietly, Bucket;
    var step := FillDone(p, true, false, NoHold);
    PlacedApart(lim, v);
    OnItsHandle(lim, v.c, p);
    WithoutOne(lim, v.c, p);
    StepKeepsInv(lim, v, step);
    QuietlyStep(lim, v, step);
    QuietlyJoin(lim, w, v, Next(lim, v, step));
  }

  lemma FillComesIn(lim: Limits, w: World, v: World, p: Ptr, key: Key, h: nat)
    requires Begun(lim, w, v, p, key, h) && key in v.disk
    ensures Begun(lim, w, v.(c := Put(v.c, p, v.c.elems[p].(buffer := v.disk[key], loaded := true))), p, key, h)
  {
    hide Inv, Quietly;
    StepKeepsInv(lim, v, FillRead(p));
    QuietlyStep(lim, v, FillRead(p));
    QuietlyJoin(lim, w, v, Next(lim, v, FillRead(p)));
  }

  lemma OthersStay(w: World, v: World, p: Ptr, h: nat, e: Lru)
    requires OtherHandles(w, v, h) && p in v.c.elems && v.c.elems[p].handle == h
    ensures OtherHandles(w, v.(c := Put(v.c, p, e)), h)
  {
  }

  /** Flushing changes no element's block, contents, handle or locks, makes none dirty, and moves nothing on the lists. */
  ghost predicate FlushedFrom(w: World, v: World) {
    && v.c == w.c.(elems := v.c.elems, dirtyBuffers := v.c.dirtyBuffers) && v.c.elems.Keys == w.c.elems.Keys
    && v.disk.Keys == w.disk.Keys && v.logical == w.logical
    && forall p :: p in w.c.elems ==> SameBlock(w.c.elems[p], v.c.elems[p])
  }

  ghost predicate SameBlock(a: Lru, b: Lru) {
    a.key == b.key && a.buffer == b.buffer && a.handle == b.handle && a.lockCount == b.lockCount && (b.dirty ==> a.dirty)
  }

  /** A write from start to end, cut off after n bytes unless ok. */
  lemma WriteGoesOut(lim: Limits, w: World, v: World, p: Ptr, sync: bool, n: nat, ok: bool)
    requires Inv(lim, w) && Settled(w) && Steps(lim, w, FlushStart(p, sync), v)
    requires n <= IO_BLOCK_SIZE && (ok ==> n == IO_BLOCK_SIZE) && (n > 0 ==> w.c.elems[p].key in w.disk)
    ensures Here(v, p) && Here(PartlyFlushed(v, p, n), p)
    ensures var u := PartlyFlushed(v, p, n); var e := u.c.elems[p];
      var x := u.(c := Put(Count(u.c, e, Flushed(e, ok)), p, Flushed(e, ok)));
      Inv(lim, x) && Quietly(lim, w, x) && Settled(x) && FlushedFrom(w, x) && (ok ==> !e.modified)
  {
    hide Inv, Placed, Quietly, PartlyWritten, Settled, FlushedFrom;
    StepKeepsInv(lim, w, FlushStart(p, sync));
    QuietlyStep(lim, w, FlushStart(p, sync));
    BytesGoOut(lim, v, p, n);
    var u := PartlyFlushed(v, p, n);
    QuietlyJoin(lim, w, v, u);
    QuietlyKeeps(lim, v, u);
    WriteEnds(lim, w, u, p, ok);
    WriteLeaves(w, v, u, p, ok);
  }

  lemma WriteEnds(lim: Limits, w: World, u: World, p: Ptr, ok: bool)
    requires Inv(lim, u) && Quietly(lim, w, u) && Enabled(lim, u, FlushDone(p, ok))
    ensures var e := u.c.elems[p]; var x := u.(c := Put(Count(u.c, e, Flushed(e, ok)), p, Flushed(e, ok)));
      Inv(lim, x) && Quietly(lim, w, x)
  {
    hide Inv, Placed, Quietly;
    var step := FlushDone(p, ok);
    StepKeepsInv(lim, u, step);
    QuietlyStep(lim, u, step);
    QuietlyJoin(lim, w, u, Next(lim, u, step));
  }

  lemma WriteLeaves(w: World, v: World, u: World, p: Ptr, ok: bool)
    requires Settled(w) && Here(w, p) && w.c.elems[p].dirty
    requires v == w.(c := Put(w.c, p, w.c.elems[p].(flushing := true, modified := false, written := {})))
    requires exists n :: 0 <= n <= IO_BLOCK_SIZE && u == PartlyFlushed(v, p, n)
    ensures var e := u.c.elems[p]; var x := u.(c := Put(Count(u.c, e, Flushed(e, ok)), p, Flushed(e, ok)));
      Settled(x) && FlushedFrom(w, x) && !e.modified
  {
    hide PartlyWritten, FirstBytes;
  }

  ghost predicate NobodyHolds(w: World) {
    forall p :: Here(w, p) ==> w.c.elems[p].lockCount == 0
  }

  ghost predicate CleanIfSpare(w: World, p: Ptr) {
    Spare(w, p) ==> !w.c.elems[p].dirty
  }

  /** The block is not in the cache, or clean there. */
  ghost predicate CleanAt(w: World, key: Key) {
    forall p :: Here(w, p) && w.c.elems[p].key == key ==> !w.c.elems[p].dirty
  }

  lemma FlushedSelf(w: World)
    ensures FlushedFrom(w, w)
  {
  }

  lemma FlushedTwice(w: World, v: World, u: World)
    requires FlushedFrom(w, v) && FlushedFrom(v, u)
    ensures FlushedFrom(w, u) && u.c.active == v.c.active
  {
  }

  /** Between calls whatever is on the active list is valid and at rest. */
  lemma ActiveIsHere(lim: Limits, w: World, i: nat)
    requires Inv(lim, w) && Settled(w) && i < |w.c.active|
    ensures Here(w, w.c.active[i]) && w.c.elems[w.c.active[i]].valid
  {
    assert w.c.active[i] in w.c.active;
    PlacedApart(lim, w);
    hide Placed;
  }

  lemma SpareStays(v: World, u: World, i: nat)
    requires FlushedFrom(v, u) && i <= |v.c.active| == |u.c.active|
    ensures forall k :: 0 <= k < i && CleanIfSpare(v, v.c.active[k]) ==> CleanIfSpare(u, u.c.active[k])
  {
  }

  lemma SpareWas(v: World, u: World, p: Ptr)
    requires FlushedFrom(v, u)
    ensures Spare(u, p) ==> Spare(v, p)
  {
    assert forall key :: key in v.disk <==> key in v.disk.Keys;
    assert forall key :: key in u.disk <==> key in u.disk.Keys;
  }

  lemma CleanStays(v: World, u: World)
    requires FlushedFrom(v, u)
    ensures forall key :: CleanAt(v, key) ==> CleanAt(u, key)
    ensures forall key :: key in v.disk <==> key in u.disk
  {
    forall key | CleanAt(v, key) ensures CleanAt(u, key) {
      forall p | Here(u, p) && u.c.elems[p].key == key ensures !u.c.elems[p].dirty { assert Here(v, p); }
    }
    assert forall key :: key in v.disk <==> key in v.disk.Keys;
    assert forall key :: key in u.disk <==> key in u.disk.Keys;
  }

  lemma FoundOnly(lim: Limits, v: World, key: Key)
    requires Inv(lim, v) && Settled(v)
    ensures SearchHash(v.c, key) == None ==> CleanAt(v, key)
    ensures SearchHash(v.c, key).Some? ==> var p := SearchHash(v.c, key).value;
      Here(v, p) && v.c.elems[p].key == key && v.c.elems[p].valid && !v.c.elems[p].loading && !v.c.elems[p].flushing
      && (!v.c.elems[p].dirty ==> CleanAt(v, key))
  {
    PlacedApart(lim, v);
    SearchFinds(lim, v.c, key);
    hide Placed, SearchHash;
    forall p | Here(v, p) && v.c.elems[p].key == key ensures SearchHash(v.c, key) == Some(p) { assert OnActive(v.c, {}, p); }
  }

  lemma FoundCleaned(lim: Limits, v: World, u: World, p: Ptr)
    requires Inv(lim, v) && FlushedFrom(v, u) && Here(v, p) && p in u.c.elems && !u.c.elems[p].dirty
    ensures CleanAt(u, v.c.elems[p].key)
  {
    PlacedApart(lim, v);
    hide Placed;
    forall q | Here(u, q) && u.c.elems[q].key == v.c.elems[p].key ensures !u.c.elems[q].dirty { assert Here(v, q); }
  }

  /** After a flush with nobody holding a block, the disk holds everything. */
  lemma FlushedAll(lim: Limits, w: World, u: World)
    requires Inv(lim, u) && FlushedFrom(w, u) && forall k :: 0 <= k < |u.c.active| ==> CleanIfSpare(u, u.c.active[k])
    ensures forall p :: Spare(u, p) ==> !u.c.elems[p].dirty
    ensures NobodyHolds(w) ==> forall key :: key in u.disk ==> At(u.logical, key) == At(u.disk, key)
    ensures NobodyHolds(w) && (forall p :: Here(u, p) ==> u.c.elems[p].key in u.disk) ==> u.c.dirtyBuffers == 0
  {
    PlacedApart(lim, u);
    hide Placed;
    forall p | Spare(u, p) ensures !u.c.elems[p].dirty {
      var k :| 0 <= k < |u.c.active| && u.c.active[k] == p;
      assert CleanIfSpare(u, u.c.active[k]);
    }
    if NobodyHolds(w) {
      assert NobodyHolds(u) by {
        forall p | Here(u, p) ensures u.c.elems[p].lockCount == 0 { assert Here(w, p); }
      }
      SpareIsBacked(lim, u);
      if forall p :: Here(u, p) ==> u.c.elems[p].key in u.disk {
        assert forall p :: Here(u, p) ==> Spare(u, p);
        assert DirtySet(u.c) == {};
      }
    }
  }

  lemma SpareIsBacked(lim: Limits, u: World)
    requires Inv(lim, u) && NobodyHolds(u) && forall p :: Spare(u, p) ==> !u.c.elems[p].dirty
    ensures forall key :: key in u.disk ==> At(u.logical, key) == At(u.disk, key)
  {
    hide Placed;
    forall key | key in u.disk ensures At(u.logical, key) == At(u.disk, key) {
      if Cached(u, key) {
        var p :| Here(u, p) && u.c.elems[p].valid && u.c.elems[p].key == key;
        assert Spare(u, p);
      }
    }
  }

  /** The handle has a block that could go, if it were clean. */
  ghost predicate Stocked(w: World, h: nat) {
    exists p :: Spare(w, p) && w.c.elems[p].handle == h
  }

  /** A further element can be had for the handle: it and the cache are below their limits, and there is memory. */
  ghost predicate Roomy(lim: Limits, w: World, h: nat) {
    lim.ample && h < |w.c.local| && h < |lim.max| && w.c.local[h] < lim.max[h] && w.c.blocks < lim.total
  }

  /** The handle can be given a block: a further one, or, once it is clean, one of its own. */
  ghost predicate Supplied(lim: Limits, w: World, h: nat) {
    Stocked(w, h) || Roomy(lim, w, h)
  }

  /** No handle with a block that could go is left without one, and handle h, at work, can be given a block if it could before. */
  ghost predicate StocksKept(lim: Limits, w: World, v: World, h: nat) {
    (forall g: nat :: Stocked(w, g) ==> Stocked(v, g)) && (Supplied(lim, w, h) ==> Supplied(lim, v, h))
  }

  /** The handle will have a block that could go when p, locked last, is released. */
  ghost predicate StockedWith(w: World, p: Ptr, g: nat) {
    exists q :: Here(w, q) && w.c.elems[q].key in w.disk && w.c.elems[q].handle == g && w.c.elems[q].lockCount == if q == p then 1 else 0
  }

  ghost predicate StocksHeld(lim: Limits, w: World, v: World, p: Ptr, h: nat) {
    && (forall g: nat :: Stocked(w, g) ==> StockedWith(v, p, g))
    && (Supplied(lim, w, h) ==> StockedWith(v, p, h) || Roomy(lim, v, h))
  }

  lemma StocksTwice(lim: Limits, w: World, v: World, u: World, h: nat)
    requires StocksKept(lim, w, v, h) && StocksKept(lim, v, u, h)
    ensures StocksKept(lim, w, u, h)
  {
    hide Stocked, Supplied;
  }

  lemma StocksApply(lim: Limits, w: World, v: World, h: nat)
    requires StocksKept(lim, w, v, h)
    ensures Supplied(lim, w, h) ==> Supplied(lim, v, h)
    ensures forall g: nat :: Stocked(w, g) ==> Stocked(v, g)
  {
    hide Stocked;
  }

  lemma StocksThen(lim: Limits, w: World, v: World, u: World, p: Ptr, h: nat)
    requires StocksKept(lim, w, v, h) && StocksHeld(lim, v, u, p, h)
    ensures StocksHeld(lim, w, u, p, h)
  {
    hide Stocked, StockedWith, Supplied;
  }

  lemma StocksSelf(lim: Limits, w: World, h: nat)
    ensures StocksKept(lim, w, w, h)
  {
  }

  /** A block found and locked. */
  lemma HitHolds(lim: Limits, w: World, p: Ptr, h: nat, writing: bool)
    requires Here(w, p)
    ensures StocksHeld(lim, w, w.(c := Put(w.c, p, Locked(w.c.elems[p], writing))), p, h)
  {
    var v := w.(c := Put(w.c, p, Locked(w.c.elems[p], writing)));
    forall g: nat | Stocked(w, g) ensures StockedWith(v, p, g) {
      var q :| Spare(w, q) && w.c.elems[q].handle == g;
      assert Here(v, q) && v.c.elems[q].lockCount == if q == p then 1 else 0;
    }
  }

  /** A block filled for handle h, and locked if n is 1. */
  lemma FillHolds(lim: Limits, w: World, v: World, p: Ptr, h: nat, n: nat)
    requires OtherHandles(w, v, h) && Here(v, p) && v.c.elems[p].key in v.disk && v.c.elems[p].handle == h && v.c.elems[p].lockCount == n <= 1
    ensures if n == 0 then StocksKept(lim, w, v, h) else StocksHeld(lim, w, v, p, h)
  {
    if n == 0 { assert Spare(v, p); } else { assert StockedWith(v, p, h); }
    forall g: nat | Stocked(w, g) ensures if n == 0 then Stocked(v, g) else StockedWith(v, p, g) {
      var q :| Spare(w, q) && w.c.elems[q].handle == g;
      if g == h { assert Here(v, p); } else { assert Here(v, q) && v.c.elems[q].lockCount == 0; }
      if n == 0 { assert Spare(v, if g == h then p else q); }
    }
  }

  /** Released, p is as free as it was. */
  lemma ReleaseStocks(lim: Limits, w: World, v: World, x: World, p: Ptr, h: nat)
    requires StocksHeld(lim, w, v, p, h) && Here(v, p) && v.c.elems[p].lockCount > 0 && x.disk == v.disk && x.c.active == v.c.active
    requires x.c.elems.Keys == v.c.elems.Keys && forall q :: q in v.c.elems && q != p ==> x.c.elems[q] == v.c.elems[q]
    requires p in x.c.elems && x.c.elems[p].key == v.c.elems[p].key && x.c.elems[p].handle == v.c.elems[p].handle
    requires x.c.elems[p].lockCount == v.c.elems[p].lockCount - 1 && x.c.local == v.c.local && x.c.blocks == v.c.blocks
    ensures StocksKept(lim, w, x, h)
  {
    forall g: nat | StockedWith(v, p, g) ensures Stocked(x, g) {
      var q :| Here(v, q) && v.c.elems[q].key in v.disk && v.c.elems[q].handle == g && v.c.elems[q].lockCount == if q == p then 1 else 0;
      assert q in v.c.elems.Keys;
      assert Spare(x, q);
    }
  }

  /** Taken off its handle's list and put back, an element counts once. */
  lemma RequeueCounts(lim: Limits, c: Cache, p: Ptr, h: nat)
    requires Placed(lim, c, {}, {}) && OnActive(c, {}, p)
    ensures c.elems[p].handle < |c.lists| == |c.local| && Requeue(c, h, p).local == c.local && Requeue(c, h, p).blocks == c.blocks
  {
    var g := c.elems[p].handle;
    assert ListIs(lim, c, {}, g);
    assert p in c.lists[g];
  }

  /** p is in the cache under `key` with one lock more than before, and nothing else is locked or released; unless the caller meant
      to overwrite all of it, or a writer was at work, the buffer holds the logical contents. */
  ghost predicate Acquired(w: World, v: World, p: Ptr, key: Key, fill: bool, writing: bool) {
    && Here(v, p) && v.c.elems[p].key == key && v.c.elems[p].valid
    && Locks(v, p) == (Locks(w, p).0 + 1, Locks(w, p).1 + if writing then 1 else 0)
    && (forall q :: q != p ==> Locks(v, q) == Locks(w, q))
    && (fill && Locks(w, p).1 == 0 ==> At(v.logical, key) == Some(v.c.elems[p].buffer))
  }

  /** Blocks `from` to n after this one all exist. */
  ghost predicate AllOn(disk: map<Key, Block>, key: Key, from: nat, n: nat) {
    forall i :: from <= i < n ==> BlockAt(key.volnum, key.block, i) in disk
  }

  lemma ShiftBlocks(disk: map<Key, Block>, key: Key, n: nat)
    requires n > 0
    ensures AllOn(disk, key, 1, n) ==> AllOn(disk, Key(key.volnum, Wrap(key.block + 1)), 0, n - 1)
  {
    if AllOn(disk, key, 1, n) {
      var next := Wrap(key.block + 1);
      forall i | 0 <= i < n - 1 ensures BlockAt(key.volnum, next, i) in disk {
        assert BlockAt(key.volnum, next, i) == BlockAt(key.volnum, key.block, i + 1);
      }
    }
  }

  lemma MidIsIdle(lim: Limits, mid: World, p: Ptr)
    requires Inv(lim, mid) && Here(mid, p) && mid.c.elems[p].loading
    ensures !mid.c.elems[p].flushing && mid.c.elems[p].lockCount == 0 && mid.c.elems[p].writers == 0
  {
    hide Sane, Placed;
    LoadingIsIdle(mid, p);
  }

  /** The block is cached, or the handle could not be given an element for it. */
  ghost predicate GotOrFull(lim: Limits, w: World, h: nat, key: Key) {
    SearchHash(w.c, key).Some? || (h < |w.c.lists| && NoneEvictable(w.c, w.c.lists[h]) && !Roomy(lim, w, h))
  }

  lemma HereIsFound(lim: Limits, w: World, p: Ptr)
    requires Inv(lim, w) && Here(w, p)
    ensures SearchHash(w.c, w.c.elems[p].key) == Some(p)
  {
    hide Sane, SearchHash;
    PlacedApart(lim, w);
    SearchFinds(lim, w.c, w.c.elems[p].key);
  }

  lemma HalfReadAhead(lim: Limits, w: World, mid: World, v: World, p: Ptr, key: Key, h: nat)
    requires Inv(lim, w) && Quietly(lim, w, mid) && Half(lim, mid, v, p, key, h, true) && OtherHandles(w, v, h)
    ensures Here(v, p) && v.c.elems[p].key == key
    ensures Inv(lim, v) && Quietly(lim, w, v) && Settled(v) && (key in v.disk ==> StocksKept(lim, w, v, h))
  {
    hide Placed, Sane, Quietly, OtherHandles, StocksKept;
    MidIsIdle(lim, mid, p);
    StepKeepsInv(lim, mid, FillDone(p, true, true, NoHold));
    QuietlyStep(lim, mid, FillDone(p, true, true, NoHold));
    QuietlyJoin(lim, w, mid, v);
    if key in v.disk { FillHolds(lim, w, v, p, h, 0); }
  }

  lemma LockFound(lim: Limits, w: World, v: World, p: Ptr, fill: bool, writing: bool)
    requires Inv(lim, w) && Quietly(lim, w, v) && Settled(v) && Enabled(lim, v, Hit(p, writing))
    ensures var u := v.(c := Put(v.c, p, Locked(v.c.elems[p], writing)));
      Inv(lim, u) && Settled(u) && Reaches(lim, w, u) && Acquired(w, u, p, v.c.elems[p].key, fill, writing) && u.logical == w.logical
  {
    hide Inv, Placed, SearchHash, Quietly;
    QuietlyKeeps(lim, w, v);
    StepKeepsInv(lim, v, Hit(p, writing));
    QuietlyThen(lim, w, v, Hit(p, writing));
    HereIsCoherent(lim, v, p);
    assert Locks(w, p) == Locks(v, p);
  }

  lemma LockFilled(lim: Limits, w: World, m: World, mid: World, v: World, p: Ptr, key: Key, h: nat, fill: bool, writing: bool)
    requires Inv(lim, w) && Quietly(lim, w, m) && Quietly(lim, m, mid) && Half(lim, mid, v, p, key, h, fill) && (!fill ==> writing)
    ensures p in v.c.elems
    ensures var u := v.(c := Put(v.c, p, Locked(v.c.elems[p], writing)));
      Inv(lim, u) && Settled(u) && Reaches(lim, w, u) && Acquired(w, u, p, key, fill, writing) && u.logical == w.logical && u.disk == mid.disk
  {
    hide Inv, Placed, Quietly, Reaches;
    QuietlyJoin(lim, w, m, mid);
    QuietlyKeeps(lim, w, mid);
    MidIsIdle(lim, mid, p);
    LoadingIsBacked(lim, mid, p);
    HereIsCoherent(lim, mid, p);
    var step := FillDone(p, fill, true, if writing then Writer else Reader);
    StepKeepsInv(lim, mid, step);
    QuietlyThen(lim, w, mid, step);
    PutTwice(mid.c.elems, p, Filled(mid.c.elems[p], NoHold), Locked(Filled(mid.c.elems[p], NoHold), writing));
  }

  lemma FilledHolds(lim: Limits, w: World, mid: World, v: World, p: Ptr, key: Key, h: nat, fill: bool, writing: bool)
    requires Half(lim, mid, v, p, key, h, fill) && OtherHandles(w, v, h) && key in v.disk
    ensures p in v.c.elems && StocksHeld(lim, w, v.(c := Put(v.c, p, Locked(v.c.elems[p], writing))), p, h)
  {
    hide Inv, StocksHeld;
    MidIsIdle(lim, mid, p);
    var u := v.(c := Put(v.c, p, Locked(v.c.elems[p], writing)));
    assert OtherHandles(w, u, h);
    hide OtherHandles;
    FillHolds(lim, w, u, p, h, 1);
  }

  lemma QuietlyReaches(lim: Limits, w: World, v: World)
    requires Inv(lim, w) && Quietly(lim, w, v)
    ensures Reaches(lim, w, v) && SameLocks(w, v) && v.logical == w.logical
  {
    hide Inv, SameLocks;
    QuietlyKeeps(lim, w, v);
  }

  /** A clean block that nobody holds can be evicted. */
  lemma StockIsEvictable(lim: Limits, v: World, h: nat)
    requires Inv(lim, v) && Settled(v) && Stocked(v, h) && h < |v.c.lists|
    requires forall p :: Spare(v, p) ==> !v.c.elems[p].dirty
    ensures !NoneEvictable(v.c, v.c.lists[h])
  {
    var p :| Spare(v, p) && v.c.elems[p].handle == h;
    assert ListIs(lim, v.c, {}, h);
    assert OnActive(v.c, {}, p);
  }

  lemma StockStays(lim: Limits, v: World, u: World, h: nat)
    requires FlushedFrom(v, u)
    ensures StocksKept(lim, v, u, h) && (Supplied(lim, v, h) ==> Supplied(lim, u, h))
    ensures u.disk.Keys == v.disk.Keys && |u.c.lists| == |v.c.lists|
    ensures forall key :: key in v.disk <==> key in u.disk
  {
    assert forall key :: key in v.disk <==> key in v.disk.Keys;
    assert forall key :: key in u.disk <==> key in u.disk.Keys;
    forall g: nat | Stocked(v, g) ensures Stocked(u, g) {
      var p :| Spare(v, p) && v.c.elems[p].handle == g;
      assert Spare(u, p);
    }
  }
}
