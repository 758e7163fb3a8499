/** The write-back protocol, one step for each stretch of lru.c between taking the cache's lock and giving it up. */
module LruProtocol {
  import opened Words
  import opened LruStates

  /** disk is what the volume's blocks hold; logical is what each block held when a holder last released it dirty. */
  datatype World = World(c: Cache, disk: map<Key, Block>, logical: map<Key, Block>)

  datatype Hold = NoHold | Reader | Writer

  datatype Step =
    | Hit(p: Ptr, writing: bool)                              // ReadLRU finds the block and locks it
    | FillStart(h: nat, key: Key, grown: Option<Ptr>)         // FillBlock up to the unlock
    | FillRead(p: Ptr)                                        // the block comes in
    | FillDone(p: Ptr, fill: bool, ok: bool, hold: Hold)      // FillBlock from the relock on; read-ahead holds nothing
    | Store(p: Ptr, data: Block)                              // a holder writes into the buffer
    | ReleaseClean(h: nat, p: Ptr)                            // ReleaseLRU
    | ReleaseDirty(h: nat, p: Ptr)                            // ReleaseDirtyLRU
    | FlushStart(p: Ptr, sync: bool)                          // FlushLRU or SyncLRUBlocks up to the unlock
    | FlushByte(p: Ptr, i: nat)                               // the write puts out one byte
    | FlushDone(p: Ptr, ok: bool)                             // from the relock on

  function At(m: map<Key, Block>, key: Key): Option<Block> {
    if key in m then Some(m[key]) else None
  }

  // ---- the steps ------------------------------------------------------------

  predicate Here(w: World, p: Ptr) {
    p in w.c.active && p in w.c.elems
  }

  ghost predicate Enabled(lim: Limits, w: World, step: Step) {
    match step
    case Hit(p, writing) => Here(w, p) && SearchHash(w.c, w.c.elems[p].key) == Some(p) && w.c.elems[p].valid && !w.c.elems[p].loading
    case FillStart(h, key, grown) => h < |w.c.lists| && SearchHash(w.c, key) == None && (grown.Some? ==> grown.value !in w.c.elems)
    case FillRead(p) => Here(w, p) && w.c.elems[p].loading && w.c.elems[p].key in w.disk
    case FillDone(p, fill, ok, hold) =>
      Here(w, p) && w.c.elems[p].loading && (if fill then ok ==> w.c.elems[p].loaded else hold == Writer)
    case Store(p, data) => Here(w, p) && w.c.elems[p].writers > 0
    case ReleaseClean(h, p) => Here(w, p) && w.c.elems[p].lockCount > w.c.elems[p].writers
    case ReleaseDirty(h, p) => Here(w, p) && w.c.elems[p].lockCount > 0 && w.c.elems[p].writers > 0
    case FlushStart(p, sync) =>
      Here(w, p) && w.c.elems[p].dirty && w.c.elems[p].valid && !w.c.elems[p].flushing && (sync || w.c.elems[p].lockCount == 0)
    case FlushByte(p, i) => Here(w, p) && w.c.elems[p].flushing && i < IO_BLOCK_SIZE && w.c.elems[p].key in w.disk
    case FlushDone(p, ok) => Here(w, p) && w.c.elems[p].flushing && (ok ==> forall i :: 0 <= i < IO_BLOCK_SIZE ==> i in w.c.elems[p].written)
  }

  function Locked(e: Lru, writing: bool): Lru {
    e.(lockCount := e.lockCount + 1, writers := e.writers + if writing then 1 else 0)
  }

  function Loading(e: Lru, key: Key): Lru {
    e.(key := key, valid := false, uptodate := false, dirty := false, flushing := false, loading := true, modified := false,
       submitted := true, loaded := false, written := {})
  }

  function Filled(e: Lru, hold: Hold): Lru {
    var r := e.(loading := false, valid := true, uptodate := true, submitted := false);
    match hold
    case NoHold => r
    case Reader => Locked(r, false)
    case Writer => Locked(r, true)
  }

  /** RemoveLRU, then InsertLRUTop for the element's own handle and InsertLRU for another. */
  function Requeue(c: Cache, h: nat, p: Ptr): (r: Cache)
    requires p in c.elems && c.elems[p].handle < |c.lists| == |c.local|
    ensures |r.lists| == |c.lists| && r.elems == c.elems && r.active == c.active && r.free == c.free
  {
    InsertLRU(RemoveLRU(c, p), p, c.elems[p].handle == h)
  }

  function Released(e: Lru): Lru {
    e.(lockCount := if e.lockCount > 0 then e.lockCount - 1 else 0)
  }

  function Dirtied(e: Lru): Lru {
    Released(e).(uptodate := false, modified := true, dirty := true, writers := if e.writers > 0 then e.writers - 1 else 0)
  }

  function Flushed(e: Lru, ok: bool): Lru {
    var r := e.(flushing := false);
    if ok && !e.modified then r.(dirty := false, uptodate := true) else r
  }

  /** InsertDirty and RemoveDirty as far as the counter goes. */
  function Count(c: Cache, was: Lru, now: Lru): Cache {
    c.(dirtyBuffers := if now.dirty && !was.dirty then c.dirtyBuffers + 1
                       else if was.dirty && !now.dirty && c.dirtyBuffers > 0 then c.dirtyBuffers - 1 else c.dirtyBuffers)
  }

  /** FillBlock up to the unlock; an element whose I/O is still submitted is shelved instead. */
  ghost function Filling(lim: Limits, c: Cache, h: nat, key: Key, grown: Option<Ptr>): Cache
    requires Placed(lim, c, {}, {}) && h < |c.lists| && (grown.Some? ==> grown.value !in c.elems)
  {
    AvailablePlaced(lim, c, h, grown);
    var (d, got) := GetAvailable(lim, c, h, grown);
    if got == None then c
    else if d.elems[got.value].submitted then Shelve(d, got.value)
    else InsertLRU(AddToHash(Put(d, got.value, Loading(d.elems[got.value], key)), got.value), got.value, true)
  }

  ghost function Next(lim: Limits, w: World, step: Step): World
    requires Placed(lim, w.c, {}, {}) && Enabled(lim, w, step)
  {
    match step
    case Hit(p, writing) => w.(c := Put(w.c, p, Locked(w.c.elems[p], writing)))
    case FillStart(h, key, grown) => w.(c := Filling(lim, w.c, h, key, grown))
    case FillRead(p) => w.(c := Put(w.c, p, w.c.elems[p].(buffer := w.disk[w.c.elems[p].key], loaded := true)))
    case FillDone(p, fill, ok, hold) =>
      if fill && !ok then w.(c := Shelve(Evict(w.c, p), p)) else w.(c := Put(w.c, p, Filled(w.c.elems[p], hold)))
    case Store(p, data) => w.(c := Put(w.c, p, w.c.elems[p].(buffer := data)))
    case ReleaseClean(h, p) => w.(c := Requeue(Put(w.c, p, Released(w.c.elems[p])), h, p))
    case ReleaseDirty(h, p) =>
      var e := w.c.elems[p];
      World(Requeue(Put(Count(w.c, e, Dirtied(e)), p, Dirtied(e)), h, p), w.disk, w.logical[e.key := e.buffer])
    case FlushStart(p, sync) => w.(c := Put(w.c, p, w.c.elems[p].(flushing := true, modified := false, written := {})))
    case FlushByte(p, i) =>
      var e := w.c.elems[p];
      World(Put(w.c, p, e.(written := e.written + {i})), w.disk[e.key := w.disk[e.key][i := e.buffer[i]]], w.logical)
    case FlushDone(p, ok) =>
      var e := w.c.elems[p];
      w.(c := Put(Count(w.c, e, Flushed(e, ok)), p, Flushed(e, ok)))
  }

  /** The step can be taken at w, and leads to v. */
  ghost predicate Steps(lim: Limits, w: World, step: Step, v: World) {
    Placed(lim, w.c, {}, {}) && Enabled(lim, w, step) && v == Next(lim, w, step)
  }

  // ---- what every step keeps ------------------------------------------------

  /** An active element against its block on disk and its logical contents: with no writer at work a valid block holds the
      logical contents, and so does the disk unless the block is dirty. */
  ghost predicate Coherent(e: Lru, disk: Option<Block>, logical: Option<Block>) {
    && (e.loading ==> !e.valid && !e.dirty && !e.flushing && e.lockCount == 0 && (e.loaded ==> disk == Some(e.buffer)))
    && (!e.loading ==> e.valid)
    && e.submitted == e.loading && e.uptodate == (e.valid && !e.dirty)
    && e.writers <= e.lockCount && (e.flushing ==> e.dirty)
    && (e.valid && e.writers == 0 ==> logical == Some(e.buffer))
    && (e.valid && e.writers == 0 && !e.dirty ==> disk == Some(e.buffer))
    && (e.flushing && e.writers == 0 && !e.modified ==> PutOut(e, disk))
    && (e.written != {} && e.flushing ==> disk.Some?)
  }

  /** The bytes already put out are the buffer's. */
  ghost predicate PutOut(e: Lru, disk: Option<Block>) {
    disk.Some? ==> forall i :: 0 <= i < IO_BLOCK_SIZE && i in e.written ==> disk.value[i] == e.buffer[i]
  }

  ghost predicate Idle(e: Lru) {
    !e.dirty && !e.submitted && e.lockCount == 0 && e.writers == 0
  }

  ghost predicate Cached(w: World, key: Key) {
    exists p :: Here(w, p) && w.c.elems[p].valid && w.c.elems[p].key == key
  }

  ghost function DirtySet(c: Cache): set<Ptr> {
    set p | p in c.elems && c.elems[p].dirty
  }

  /** The contents, wherever the elements are. */
  ghost predicate Sane(w: World) {
    && (forall p :: Here(w, p) ==> Coherent(w.c.elems[p], At(w.disk, w.c.elems[p].key), At(w.logical, w.c.elems[p].key)))
    && (forall p :: p in w.c.free && p in w.c.elems ==> Idle(w.c.elems[p]))
    && (forall key :: key in w.disk && !Cached(w, key) ==> At(w.logical, key) == At(w.disk, key))
  }

  ghost predicate KeysApart(w: World) {
    forall p, q :: Here(w, p) && Here(w, q) && w.c.elems[p].key == w.c.elems[q].key ==> p == q
  }

  ghost predicate Inv(lim: Limits, w: World)
    ensures Inv(lim, w) ==> Placed(lim, w.c, {}, {})
  {
    Placed(lim, w.c, {}, {}) && Sane(w) && w.c.dirtyBuffers == |DirtySet(w.c)|
  }

  lemma PlacedApart(lim: Limits, w: World)
    requires Placed(lim, w.c, {}, {})
    ensures KeysApart(w) && forall p :: p in w.c.elems <==> p in w.c.active || p in w.c.free
    ensures forall p :: p in w.c.active ==> p !in w.c.free
    ensures forall p :: Here(w, p) ==> OnActive(w.c, {}, p)
  {
    hide ListIs, BucketIs, NoDup;
    forall p, q | Here(w, p) && Here(w, q) && w.c.elems[p].key == w.c.elems[q].key ensures p == q {
      assert OnActive(w.c, {}, p) && OnActive(w.c, {}, q);
    }
  }

  /** From w to v only p's element and its block have changed. */
  ghost predicate OnlyAt(w: World, v: World, p: Ptr) {
    && Here(w, p) && v.c.elems.Keys == w.c.elems.Keys && p in v.c.elems && v.c.elems[p].key == w.c.elems[p].key
    && v.c.active == w.c.active && v.c.free == w.c.free
    && (forall q :: q in w.c.elems && q != p ==> v.c.elems[q] == w.c.elems[q])
    && (forall k :: k != w.c.elems[p].key ==> At(v.disk, k) == At(w.disk, k) && At(v.logical, k) == At(w.logical, k))
  }

  /** From w to v nothing but p's element and where p is has changed. */
  ghost predicate SameElsewhere(w: World, v: World, p: Ptr) {
    forall q :: q != p ==>
      && (q in v.c.active <==> q in w.c.active) && (q in v.c.free <==> q in w.c.free)
      && (q in v.c.elems <==> q in w.c.elems) && (q in w.c.elems ==> v.c.elems[q] == w.c.elems[q])
  }

  lemma CachedBy(w: World, p: Ptr)
    requires Here(w, p) && w.c.elems[p].valid
    ensures Cached(w, w.c.elems[p].key)
  {
  }

  lemma StillCached(w: World, v: World, p: Ptr, k: Key)
    requires SameElsewhere(w, v, p)
    ensures Cached(w, k) ==> Cached(v, k) || (Here(w, p) && w.c.elems[p].valid && w.c.elems[p].key == k)
  {
    if Cached(w, k) {
      var q :| Here(w, q) && w.c.elems[q].valid && w.c.elems[q].key == k;
      if q != p { CachedBy(v, q); }
    }
  }

  lemma ChangeStaysSane(w: World, v: World, p: Ptr)
    requires Sane(w) && KeysApart(w) && OnlyAt(w, v, p) && p !in w.c.free
    requires Coherent(v.c.elems[p], At(v.disk, w.c.elems[p].key), At(v.logical, w.c.elems[p].key))
    requires if v.c.elems[p].valid then true else !w.c.elems[p].valid && v.disk == w.disk && v.logical == w.logical
    ensures Sane(v)
  {
    hide Coherent, Idle;
    forall q | Here(v, q) ensures Coherent(v.c.elems[q], At(v.disk, v.c.elems[q].key), At(v.logical, v.c.elems[q].key)) {
      assert Here(w, q);
    }
    if v.c.elems[p].valid { CachedBy(v, p); }
    forall k | k in v.disk && !Cached(v, k) ensures At(v.logical, k) == At(v.disk, k) {
      assert At(v.disk, k).Some?;
      StillCached(w, v, p, k);
    }
  }

  lemma ReplaceStaysSane(w: World, v: World, p: Ptr)
    requires Sane(w) && SameElsewhere(w, v, p) && v.disk == w.disk && v.logical == w.logical
    requires p in w.c.elems && p in w.c.active ==> Evictable(w.c.elems[p])
    requires p in v.c.elems
    requires p in v.c.active ==> Coherent(v.c.elems[p], At(v.disk, v.c.elems[p].key), At(v.logical, v.c.elems[p].key))
    requires p in v.c.free ==> Idle(v.c.elems[p])
    ensures Sane(v)
  {
    forall q | Here(v, q) ensures Coherent(v.c.elems[q], At(v.disk, v.c.elems[q].key), At(v.logical, v.c.elems[q].key)) {
      assert q != p ==> Here(w, q);
    }
    forall k | k in v.disk && !Cached(v, k) ensures At(v.logical, k) == At(v.disk, k) {
      StillCached(w, v, p, k);
    }
  }

  /** A fill starts with an idle element, and leaves the contents of the cache and the count of dirty blocks as they should be. */
  lemma FillingStaysSane(lim: Limits, w: World, h: nat, key: Key, grown: Option<Ptr>)
    requires Inv(lim, w) && h < |w.c.lists| && SearchHash(w.c, key) == None && (grown.Some? ==> grown.value !in w.c.elems)
    ensures Sane(w.(c := Filling(lim, w.c, h, key, grown)))
    ensures DirtySet(Filling(lim, w.c, h, key, grown)) == DirtySet(w.c)
    ensures Filling(lim, w.c, h, key, grown).dirtyBuffers == w.c.dirtyBuffers
    ensures var (d, got) := GetAvailable(lim, w.c, h, grown); got.Some? ==> got.value in d.elems && Idle(d.elems[got.value])
  {
    hide Placed, SearchHash, GetAvailable, Sane, Bucket, DirtySet;
    var v := w.(c := Filling(lim, w.c, h, key, grown));
    AvailablePlaced(lim, w.c, h, grown);
    AvailableTouchesOne(lim, w.c, h, grown);
    PlacedApart(lim, w);
    FillingKeepsDirty(lim, w, h, key, grown);
    var (d, got) := GetAvailable(lim, w.c, h, grown);
    if got.Some? { ReplaceStaysSane(w, v, got.value); }
  }

  lemma FillingKeepsDirty(lim: Limits, w: World, h: nat, key: Key, grown: Option<Ptr>)
    requires Inv(lim, w) && h < |w.c.lists| && (grown.Some? ==> grown.value !in w.c.elems)
    ensures DirtySet(Filling(lim, w.c, h, key, grown)) == DirtySet(w.c)
    ensures Filling(lim, w.c, h, key, grown).dirtyBuffers == w.c.dirtyBuffers
    ensures var (d, got) := GetAvailable(lim, w.c, h, grown); got.Some? ==> got.value in d.elems && Idle(d.elems[got.value])
  {
    hide Placed, SearchHash, GetAvailable, Sane, Bucket, Without, Coherent, DirtySet, Filling;
    FillingTouches(lim, w.c, h, key, grown);
    AvailableTouchesOne(lim, w.c, h, grown);
    PlacedApart(lim, w);
    var (d, got) := GetAvailable(lim, w.c, h, grown);
    if got.Some? {
      GivenUpIsIdle(w, d, got.value, h);
      CleanForClean(w.c, Filling(lim, w.c, h, key, grown), got.value);
    }
  }

  /** A fill leaves its element clean, and the others as GetAvailableLRU left them. */
  lemma FillingTouches(lim: Limits, c: Cache, h: nat, key: Key, grown: Option<Ptr>)
    requires Placed(lim, c, {}, {}) && h < |c.lists| && (grown.Some? ==> grown.value !in c.elems)
    ensures var (d, got) := GetAvailable(lim, c, h, grown); var f := Filling(lim, c, h, key, grown);
      if got == None then f == c else
        && got.value in d.elems && f.dirtyBuffers == d.dirtyBuffers && f.elems.Keys == d.elems.Keys && !f.elems[got.value].dirty
        && forall q :: q in d.elems && q != got.value ==> f.elems[q] == d.elems[q]
  {
    hide Placed, GetAvailable, Bucket, Without;
    AvailablePlaced(lim, c, h, grown);
  }

  lemma CleanForClean(c: Cache, d: Cache, p: Ptr)
    requires d.elems.Keys == c.elems.Keys + {p} && p in d.elems && !d.elems[p].dirty && (p in c.elems ==> !c.elems[p].dirty)
    requires forall q :: q in c.elems && q != p ==> d.elems[q] == c.elems[q]
    ensures DirtySet(d) == DirtySet(c)
  {
    assert forall q :: q in d.elems <==> q in d.elems.Keys;
    assert forall q :: q in c.elems <==> q in c.elems.Keys;
  }

  lemma GivenUpIsIdle(w: World, d: Cache, p: Ptr, h: nat)
    requires Sane(w) && (forall q :: q in w.c.elems <==> q in w.c.active || q in w.c.free) && p in d.elems
    requires p in w.c.elems ==> d.elems[p] == w.c.elems[p].(handle := h) && (p in w.c.active ==> Evictable(w.c.elems[p]))
    requires p !in w.c.elems ==> d.elems[p] == NewLru(h)
    ensures Idle(d.elems[p])
  {
    if p in w.c.elems && p in w.c.active { assert Here(w, p); }
  }

  // ---- each step ------------------------------------------------------------

  lemma FillingPlaced(lim: Limits, w: World, h: nat, key: Key, grown: Option<Ptr>)
    requires Inv(lim, w) && h < |w.c.lists| && SearchHash(w.c, key) == None && (grown.Some? ==> grown.value !in w.c.elems)
    ensures Placed(lim, Filling(lim, w.c, h, key, grown), {}, {})
  {
    hide Placed, SearchHash, GetAvailable, Sane, Bucket;
    AvailablePlaced(lim, w.c, h, grown);
    AvailableTouchesOne(lim, w.c, h, grown);
    SearchFinds(lim, w.c, key);
    FillingStaysSane(lim, w, h, key, grown);
    var (d, got) := GetAvailable(lim, w.c, h, grown);
    if got.Some? {
      var p := got.value;
      var f := Put(d, p, Loading(d.elems[p], key));
      PutPlaced(lim, d, {p}, {p}, p, Loading(d.elems[p], key));
      forall q | OnActive(f, {p}, q) ensures f.elems[q].key != key { assert OnActive(w.c, {}, q); }
      AddToHashPlaced(lim, f, {p}, {p}, p);
      assert {p} - {p} == {};
      InsertLRUPlaced(lim, AddToHash(f, p), {p}, {}, p, true);
    }
  }

  lemma RequeuePlaced(lim: Limits, c: Cache, h: nat, p: Ptr)
    requires Placed(lim, c, {}, {}) && OnActive(c, {}, p)
    ensures Placed(lim, Requeue(c, h, p), {}, {})
  {
    hide Placed;
    OnItsHandle(lim, c, p);
    RemoveLRUPlaced(lim, c, {}, {}, p);
    assert {} + {p} == {p} && {p} - {p} == {};
    InsertLRUPlaced(lim, RemoveLRU(c, p), {p}, {}, p, c.elems[p].handle == h);
  }

  lemma OnItsHandle(lim: Limits, c: Cache, p: Ptr)
    requires Placed(lim, c, {}, {}) && OnActive(c, {}, p)
    ensures c.elems[p].handle < |c.lists| == |c.local|
  {
  }

  lemma DirtyPut(c: Cache, p: Ptr, e: Lru)
    requires p in c.elems && c.dirtyBuffers == |DirtySet(c)|
    ensures Put(Count(c, c.elems[p], e), p, e).dirtyBuffers == |DirtySet(Put(Count(c, c.elems[p], e), p, e))|
  {
    var d := Put(Count(c, c.elems[p], e), p, e);
    if e.dirty {
      assert DirtySet(d) == DirtySet(c) + {p};
    } else {
      assert DirtySet(d) == DirtySet(c) - {p};
    }
  }

  /** A step that changes one element in place, and perhaps its block. */
  lemma ChangeKeepsInv(lim: Limits, w: World, v: World, p: Ptr, e: Lru)
    requires Inv(lim, w) && Here(w, p) && v.c == Put(Count(w.c, w.c.elems[p], e), p, e)
    requires e.key == w.c.elems[p].key && e.handle == w.c.elems[p].handle
    requires forall k :: k != e.key ==> At(v.disk, k) == At(w.disk, k) && At(v.logical, k) == At(w.logical, k)
    requires Coherent(e, At(v.disk, e.key), At(v.logical, e.key))
    requires if e.valid then true else !w.c.elems[p].valid && v.disk == w.disk && v.logical == w.logical
    ensures Inv(lim, v)
  {
    hide Placed, Sane, Coherent;
    PlacedApart(lim, w);
    var d := Count(w.c, w.c.elems[p], e);
    CountPlaced(lim, w.c, w.c.elems[p], e);
    PutPlaced(lim, d, {}, {}, p, e);
    assert v.c.elems.Keys == w.c.elems.Keys;
    ChangeStaysSane(w, v, p);
    DirtyPut(w.c, p, e);
  }

  lemma CountPlaced(lim: Limits, c: Cache, was: Lru, now: Lru)
    requires Placed(lim, c, {}, {})
    ensures Placed(lim, Count(c, was, now), {}, {})
  {
    var d := Count(c, was, now);
    forall h | 0 <= h < |d.lists| ensures ListIs(lim, d, {}, h) { SameList(lim, c, d, {}, h); }
    forall b | 0 <= b < |d.hash| ensures BucketIs(d, {}, b) { SameBucket(c, d, {}, b); }
  }

  lemma RequeueKeepsInv(lim: Limits, w: World, h: nat, p: Ptr)
    requires Inv(lim, w) && Here(w, p)
    ensures w.c.elems[p].handle < |w.c.lists| == |w.c.local|
    ensures Inv(lim, w.(c := Requeue(w.c, h, p)))
  {
    hide Placed, Coherent, Idle;
    PlacedApart(lim, w);
    OnItsHandle(lim, w.c, p);
    RequeuePlaced(lim, w.c, h, p);
    var v := w.(c := Requeue(w.c, h, p));
    forall k | k in v.disk && !Cached(v, k) ensures At(v.logical, k) == At(v.disk, k) { StillCached(w, v, p, k); }
    assert DirtySet(v.c) == DirtySet(w.c);
  }

  lemma FillFailsKeepsInv(lim: Limits, w: World, p: Ptr)
    requires Inv(lim, w) && Here(w, p) && w.c.elems[p].loading
    ensures w.c.elems[p].handle < |w.c.lists| == |w.c.local| && |w.c.hash| > 0
    ensures Inv(lim, w.(c := Shelve(Evict(w.c, p), p)))
  {
    hide Placed, Sane, Bucket, Without;
    PlacedApart(lim, w);
    OnItsHandle(lim, w.c, p);
    WithoutOne(lim, w.c, p);
    EvictedIsPlaced(lim, w.c, p);
    var v := w.(c := Shelve(Evict(w.c, p), p));
    LoadingIsIdle(w, p);
    ReplaceLoading(w, v, p);
    assert DirtySet(v.c) == DirtySet(w.c);
  }

  lemma EvictedIsPlaced(lim: Limits, c: Cache, p: Ptr)
    requires Placed(lim, c, {}, {}) && OnActive(c, {}, p)
    ensures c.elems[p].handle < |c.lists| == |c.local| && |c.hash| > 0
    ensures Placed(lim, Shelve(Evict(c, p), p), {}, {})
  {
    OnItsHandle(lim, c, p);
    WithoutOne(lim, c, p);
    hide Placed, Bucket, Without;
    RemoveLRUPlaced(lim, c, {}, {}, p);
    assert {} + {p} == {p};
    RemoveHashPlaced(lim, RemoveLRU(c, p), {p}, {}, p);
    ShelvePlaced(lim, Evict(c, p), p);
  }

  lemma WithoutOne(lim: Limits, c: Cache, p: Ptr)
    requires Placed(lim, c, {}, {})
    ensures |c.hash| > 0 && forall q :: q in Without(c.active, p) <==> q in c.active && q != p
  {
  }

  lemma LoadingIsIdle(w: World, p: Ptr)
    requires Sane(w) && Here(w, p) && w.c.elems[p].loading
    ensures !w.c.elems[p].dirty && !w.c.elems[p].valid && !w.c.elems[p].flushing && w.c.elems[p].lockCount == 0 && w.c.elems[p].writers == 0
  {
  }

  /** A block that never became valid can go: its logical contents are still those on disk. */
  lemma ReplaceLoading(w: World, v: World, p: Ptr)
    requires Sane(w) && SameElsewhere(w, v, p) && v.disk == w.disk && v.logical == w.logical
    requires Here(w, p) && !w.c.elems[p].valid && p in v.c.elems && p !in v.c.active && Idle(v.c.elems[p])
    ensures Sane(v)
  {
    hide Coherent;
    forall q | Here(v, q) ensures Coherent(v.c.elems[q], At(v.disk, v.c.elems[q].key), At(v.logical, v.c.elems[q].key)) {
      assert Here(w, q);
    }
    forall k | k in v.disk && !Cached(v, k) ensures At(v.logical, k) == At(v.disk, k) {
      StillCached(w, v, p, k);
    }
  }

  lemma ReleaseKeepsInv(lim: Limits, w: World, v: World, h: nat, p: Ptr, e: Lru)
    requires Inv(lim, w) && Here(w, p) && e.key == w.c.elems[p].key && e.handle == w.c.elems[p].handle && e.valid
    requires v.c == Put(Count(w.c, w.c.elems[p], e), p, e) && v.disk == w.disk
    requires forall k :: k != e.key ==> At(v.logical, k) == At(w.logical, k)
    requires Coherent(e, At(v.disk, e.key), At(v.logical, e.key))
    ensures e.handle < |v.c.lists| == |v.c.local|
    ensures Inv(lim, v.(c := Requeue(v.c, h, p)))
  {
    hide Inv, Coherent, Requeue;
    ChangeKeepsInv(lim, w, v, p, e);
    RequeueKeepsInv(lim, v, h, p);
  }

  /** While a block loads, the logical contents are the disk's. */
  lemma LoadingIsBacked(lim: Limits, w: World, p: Ptr)
    requires Inv(lim, w) && Here(w, p) && w.c.elems[p].loading
    ensures w.c.elems[p].key in w.disk ==> At(w.logical, w.c.elems[p].key) == At(w.disk, w.c.elems[p].key)
  {
    PlacedApart(lim, w);
    hide Placed;
  }

  /** A block written out in full while nobody wrote to it is on disk. */
  lemma AllPutOut(e: Lru, disk: Option<Block>, logical: Option<Block>)
    requires Coherent(e, disk, logical) && e.flushing && forall i :: 0 <= i < IO_BLOCK_SIZE ==> i in e.written
    ensures e.writers == 0 && !e.modified ==> disk == Some(e.buffer)
  {
    assert 0 in e.written;
    if e.writers == 0 && !e.modified { assert disk.value == e.buffer; }
  }

  lemma HereIsCoherent(lim: Limits, w: World, p: Ptr)
    requires Inv(lim, w) && Here(w, p)
    ensures Coherent(w.c.elems[p], At(w.disk, w.c.elems[p].key), At(w.logical, w.c.elems[p].key))
  {
    hide Placed, Coherent;
  }

  lemma HolderKeepsInv(lim: Limits, w: World, step: Step)
    requires Inv(lim, w) && Enabled(lim, w, step) && (step.Hit? || step.Store? || step.ReleaseClean? || step.ReleaseDirty?)
    ensures Inv(lim, Next(lim, w, step))
  {
    hide Placed, Inv, SearchHash, Filling, Requeue;
    HereIsCoherent(lim, w, step.p);
    var v, e := Next(lim, w, step), w.c.elems[step.p];
    match step
    case Hit(p, writing) => ChangeKeepsInv(lim, w, v, p, Locked(e, writing));
    case Store(p, data) => ChangeKeepsInv(lim, w, v, p, e.(buffer := data));
    case ReleaseClean(h, p) => ReleaseKeepsInv(lim, w, w.(c := Put(w.c, p, Released(e))), h, p, Released(e));
    case ReleaseDirty(h, p) =>
      ReleaseKeepsInv(lim, w, World(Put(Count(w.c, e, Dirtied(e)), p, Dirtied(e)), w.disk, w.logical[e.key := e.buffer]), h, p, Dirtied(e));
  }

  lemma FillKeepsInv(lim: Limits, w: World, step: Step)
    requires Inv(lim, w) && Enabled(lim, w, step) && (step.FillRead? || step.FillDone?)
    ensures Inv(lim, Next(lim, w, step))
  {
    hide Placed, Inv, SearchHash, Filling, Requeue, Shelve, Evict;
    HereIsCoherent(lim, w, step.p);
    var v, e := Next(lim, w, step), w.c.elems[step.p];
    match step
    case FillRead(p) => ChangeKeepsInv(lim, w, v, p, e.(buffer := w.disk[e.key], loaded := true));
    case FillDone(p, fill, ok, hold) =>
      if fill && !ok {
        FillFailsKeepsInv(lim, w, p);
      } else {
        LoadingIsBacked(lim, w, p);
        ChangeKeepsInv(lim, w, v, p, Filled(e, hold));
      }
  }

  lemma FlushKeepsInv(lim: Limits, w: World, step: Step)
    requires Inv(lim, w) && Enabled(lim, w, step) && (step.FlushStart? || step.FlushByte? || step.FlushDone?)
    ensures Inv(lim, Next(lim, w, step))
  {
    hide Placed, Inv, SearchHash, Filling, Requeue, Shelve, Evict;
    HereIsCoherent(lim, w, step.p);
    var v, e := Next(lim, w, step), w.c.elems[step.p];
    match step
    case FlushStart(p, sync) => ChangeKeepsInv(lim, w, v, p, e.(flushing := true, modified := false, written := {}));
    case FlushByte(p, i) => ChangeKeepsInv(lim, w, v, p, e.(written := e.written + {i}));
    case FlushDone(p, ok) =>
      if ok { AllPutOut(e, At(w.disk, e.key), At(w.logical, e.key)); }
      ChangeKeepsInv(lim, w, v, p, Flushed(e, ok));
  }

  /** Every step of every thread keeps the lists in order, the blocks coherent and the counters right. */
  lemma StepKeepsInv(lim: Limits, w: World, step: Step)
    requires Inv(lim, w) && Enabled(lim, w, step)
    ensures Inv(lim, Next(lim, w, step))
  {
    hide Placed, SearchHash, Filling;
    match step {
      case FillStart(h, key, grown) =>
        FillingPlaced(lim, w, h, key, grown);
        FillingStaysSane(lim, w, h, key, grown);
      case Hit(_, _) | Store(_, _) | ReleaseClean(_, _) | ReleaseDirty(_, _) => HolderKeepsInv(lim, w, step);
      case FillRead(_) | FillDone(_, _, _, _) => FillKeepsInv(lim, w, step);
      case FlushStart(_, _) | FlushByte(_, _) | FlushDone(_, _) => FlushKeepsInv(lim, w, step);
    }
  }

  // ---- whole runs -----------------------------------------------------------

  /** w leads to v by the steps, of whatever threads, each possible when its turn comes. */
  ghost predicate Leads(lim: Limits, w: World, steps: seq<Step>, v: World)
    decreases steps
  {
    if steps == [] then w == v
    else Placed(lim, w.c, {}, {}) && Enabled(lim, w, steps[0]) && Leads(lim, Next(lim, w, steps[0]), steps[1..], v)
  }

  /** An empty cache over a disk. */
  ghost predicate Fresh(lim: Limits, w: World) {
    && w.c.elems == map[] && w.c.active == [] && w.c.free == [] && w.c.blocks == 0 && w.c.dirtyBuffers == 0
    && |w.c.lists| == |w.c.local| == |lim.max| && |w.c.hash| > 0
    && (forall h :: 0 <= h < |w.c.lists| ==> w.c.lists[h] == [] && w.c.local[h] == 0)
    && (forall b :: 0 <= b < |w.c.hash| ==> w.c.hash[b] == [])
    && w.logical == w.disk
  }

  lemma {:induction false} RunKeepsInv(lim: Limits, w: World, steps: seq<Step>, v: World)
    requires Inv(lim, w) && Leads(lim, w, steps, v)
    ensures Inv(lim, v)
    decreases steps
  {
    hide Inv, Placed, Enabled, Next;
    if steps != [] {
      StepKeepsInv(lim, w, steps[0]);
      RunKeepsInv(lim, Next(lim, w, steps[0]), steps[1..], v);
    }
  }

  lemma FreshInv(lim: Limits, w: World)
    requires Fresh(lim, w)
    ensures Inv(lim, w)
  {
    assert DirtySet(w.c) == {};
  }

  /** Cache coherence over every interleaving: a block that no writer holds has the logical contents in its buffer, and on disk
      too unless it is dirty; a block that is not in the cache has them on disk. */
  lemma CacheIsCoherent(lim: Limits, w: World, steps: seq<Step>, v: World, key: Key)
    requires Fresh(lim, w) && Leads(lim, w, steps, v)
    ensures forall p :: Here(v, p) && v.c.elems[p].key == key && v.c.elems[p].valid && v.c.elems[p].writers == 0 ==>
      At(v.logical, key) == Some(v.c.elems[p].buffer) && (!v.c.elems[p].dirty ==> At(v.disk, key) == Some(v.c.elems[p].buffer))
    ensures key in v.disk && !Cached(v, key) ==> At(v.logical, key) == At(v.disk, key)
  {
    FreshInv(lim, w);
    RunKeepsInv(lim, w, steps, v);
    hide Placed;
  }

  /** With no writers about, the counter of dirty buffers at zero says that the disk holds everything. */
  lemma NothingDirtyNothingLost(lim: Limits, w: World, steps: seq<Step>, v: World)
    requires Fresh(lim, w) && Leads(lim, w, steps, v)
    requires forall p :: Here(v, p) ==> v.c.elems[p].writers == 0
    ensures v.c.dirtyBuffers == 0 ==> forall key :: key in v.disk ==> At(v.logical, key) == At(v.disk, key)
    ensures v.c.dirtyBuffers == |DirtySet(v.c)|
  {
    FreshInv(lim, w);
    RunKeepsInv(lim, w, steps, v);
    if v.c.dirtyBuffers == 0 { InvBacked(lim, v); }
  }

  lemma InvBacked(lim: Limits, v: World)
    requires Inv(lim, v) && v.c.dirtyBuffers == 0 && forall p :: Here(v, p) ==> v.c.elems[p].writers == 0
    ensures forall key :: key in v.disk ==> At(v.logical, key) == At(v.disk, key)
  {
    hide Placed;
    assert DirtySet(v.c) == {};
    forall key | key in v.disk ensures At(v.logical, key) == At(v.disk, key) {
      if Cached(v, key) {
        var p :| Here(v, p) && v.c.elems[p].valid && v.c.elems[p].key == key;
        assert p !in DirtySet(v.c);
      }
    }
  }

  /** Between steps every element is on exactly one of the active and the free list, an active one on its handle's list and in its
      bucket and nowhere else, at most one for a volume and block; no handle is over its limit. */
  lemma ListsStayInOrder(lim: Limits, w: World, steps: seq<Step>, v: World)
    requires Fresh(lim, w) && Leads(lim, w, steps, v)
    ensures forall p :: p in v.c.elems <==> (p in v.c.active) != (p in v.c.free)
    ensures |v.c.lists| == |v.c.local| == |lim.max|
    ensures forall h, p :: 0 <= h < |v.c.lists| ==> (p in v.c.lists[h] <==> Here(v, p) && v.c.elems[p].handle == h)
    ensures forall b, p :: 0 <= b < |v.c.hash| ==> (p in v.c.hash[b] <==> Here(v, p) && Bucket(v.c.elems[p].key.block, |v.c.hash|) == b)
    ensures forall h :: 0 <= h < |v.c.lists| ==> NoDup(v.c.lists[h]) && v.c.local[h] == |v.c.lists[h]| <= lim.max[h]
    ensures KeysApart(v) && v.c.blocks == |v.c.active| + |v.c.free| <= lim.total
  {
    FreshInv(lim, w);
    RunKeepsInv(lim, w, steps, v);
    PlacedApart(lim, v);
    hide Bucket, NoDup, Leads, Fresh;
    forall h, p | 0 <= h < |v.c.lists| ensures p in v.c.lists[h] <==> Here(v, p) && v.c.elems[p].handle == h {
      assert ListIs(lim, v.c, {}, h);
    }
    forall b, p | 0 <= b < |v.c.hash| ensures p in v.c.hash[b] <==> Here(v, p) && Bucket(v.c.elems[p].key.block, |v.c.hash|) == b {
      assert BucketIs(v.c, {}, b);
    }
    forall h | 0 <= h < |v.c.lists| ensures NoDup(v.c.lists[h]) && v.c.local[h] == |v.c.lists[h]| <= lim.max[h] {
      assert ListIs(lim, v.c, {}, h);
    }
  }

  /** FillBlock's refusal of an element whose I/O is still submitted is never taken. */
  lemma NeverAlreadyScheduled(lim: Limits, w: World, steps: seq<Step>, v: World, h: nat, key: Key, grown: Option<Ptr>)
    requires Fresh(lim, w) && Leads(lim, w, steps, v) && Placed(lim, v.c, {}, {}) && Enabled(lim, v, FillStart(h, key, grown))
    ensures var (d, got) := GetAvailable(lim, v.c, h, grown); got.Some? ==> got.value in d.elems && !d.elems[got.value].submitted
  {
    FreshInv(lim, w);
    RunKeepsInv(lim, w, steps, v);
    FillingStaysSane(lim, v, h, key, grown);
  }

  // ---- steps that take and release no lock on a block ------------------------

  ghost predicate Background(step: Step) {
    match step
    case FillStart(_, _, _) => true
    case FillRead(_) => true
    case FillDone(_, fill, ok, hold) => hold == NoHold || (fill && !ok)
    case FlushStart(_, _) => true
    case FlushByte(_, _) => true
    case FlushDone(_, _) => true
    case _ => false
  }

  ghost predicate AllBackground(steps: seq<Step>) {
    forall i :: 0 <= i < |steps| ==> Background(steps[i])
  }

  /** w leads to v by fills and flushes alone. */
  ghost predicate Quietly(lim: Limits, w: World, v: World) {
    exists steps :: AllBackground(steps) && Leads(lim, w, steps, v)
  }

  function Locks(w: World, p: Ptr): (nat, nat) {
    if Here(w, p) then (w.c.elems[p].lockCount, w.c.elems[p].writers) else (0, 0)
  }

  ghost predicate SameLocks(w: World, v: World) {
    forall p :: Locks(w, p) == Locks(v, p)
  }

  lemma FillingKeepsLocks(lim: Limits, w: World, h: nat, key: Key, grown: Option<Ptr>)
    requires Inv(lim, w) && Enabled(lim, w, FillStart(h, key, grown))
    ensures SameLocks(w, Next(lim, w, FillStart(h, key, grown)))
  {
    hide Placed, SearchHash, GetAvailable, Sane, Bucket;
    PlacedApart(lim, w);
    AvailableTouchesOne(lim, w.c, h, grown);
    AvailablePlaced(lim, w.c, h, grown);
    FillingStaysSane(lim, w, h, key, grown);
    var (d, got) := GetAvailable(lim, w.c, h, grown);
    if got.Some? { EvictedIsUnlocked(w, d, got.value, h); }
  }

  lemma ShelvingKeepsLocks(lim: Limits, w: World, p: Ptr)
    requires Inv(lim, w) && Here(w, p) && w.c.elems[p].loading
    ensures w.c.elems[p].handle < |w.c.lists| == |w.c.local| && |w.c.hash| > 0
    ensures SameLocks(w, w.(c := Shelve(Evict(w.c, p), p)))
  {
    hide Placed, Sane, Bucket;
    LoadingIsIdle(w, p);
    WithoutOne(lim, w.c, p);
    PlacedApart(lim, w);
    OnItsHandle(lim, w.c, p);
  }

  lemma BackgroundKeepsLocks(lim: Limits, w: World, step: Step)
    requires Inv(lim, w) && Enabled(lim, w, step) && Background(step)
    ensures SameLocks(w, Next(lim, w, step)) && Next(lim, w, step).logical == w.logical
  {
    hide Placed, SearchHash, Sane, Filling, Shelve, Evict, Inv;
    match step
    case FillStart(h, key, grown) => FillingKeepsLocks(lim, w, h, key, grown);
    case FillDone(p, fill, ok, hold) =>
      if fill && !ok { ShelvingKeepsLocks(lim, w, p); }
    case FillRead(p) =>
    case FlushStart(p, sync) =>
    case FlushByte(p, i) =>
    case FlushDone(p, ok) =>
  }

  lemma EvictedIsUnlocked(w: World, d: Cache, p: Ptr, h: nat)
    requires p in d.elems && Idle(d.elems[p])
    requires p in w.c.elems ==> d.elems[p] == w.c.elems[p].(handle := h)
    ensures Locks(w, p) == (0, 0)
  {
  }

  lemma {:induction false} LeadsJoin(lim: Limits, w: World, a: seq<Step>, m: World, b: seq<Step>, v: World)
    requires Leads(lim, w, a, m) && Leads(lim, m, b, v)
    ensures Leads(lim, w, a + b, v)
    decreases a
  {
    hide Placed, Enabled, Next;
    if a == [] {
      assert a + b == b;
    } else {
      LeadsJoin(lim, Next(lim, w, a[0]), a[1..], m, b, v);
      assert (a + b)[1..] == a[1..] + b;
    }
  }

  lemma QuietlySelf(lim: Limits, w: World)
    ensures Quietly(lim, w, w)
  {
    assert AllBackground([]) && Leads(lim, w, [], w);
  }

  lemma QuietlyStep(lim: Limits, w: World, step: Step)
    requires Placed(lim, w.c, {}, {}) && Enabled(lim, w, step) && Background(step)
    ensures Quietly(lim, w, Next(lim, w, step))
  {
    hide Placed, Enabled, Next;
    assert Leads(lim, w, [step], Next(lim, w, step)) by { assert [step][1..] == []; }
    assert AllBackground([step]);
  }

  lemma QuietlyJoin(lim: Limits, w: World, m: World, v: World)
    requires Quietly(lim, w, m) && Quietly(lim, m, v)
    ensures Quietly(lim, w, v)
  {
    hide Leads, Background;
    var a :| AllBackground(a) && Leads(lim, w, a, m);
    var b :| AllBackground(b) && Leads(lim, m, b, v);
    LeadsJoin(lim, w, a, m, b, v);
    assert AllBackground(a + b);
  }

  lemma {:induction false} BackgroundRun(lim: Limits, w: World, steps: seq<Step>, v: World)
    requires Inv(lim, w) && AllBackground(steps) && Leads(lim, w, steps, v)
    ensures Inv(lim, v) && SameLocks(w, v) && v.logical == w.logical
    decreases steps
  {
    hide Inv, Placed, Enabled, Next, Background, Locks;
    if steps != [] {
      StepKeepsInv(lim, w, steps[0]);
      BackgroundKeepsLocks(lim, w, steps[0]);
      BackgroundRun(lim, Next(lim, w, steps[0]), steps[1..], v);
    }
  }

  /** Fills and flushes change neither what is locked nor what any block logically holds. */
  lemma QuietlyKeeps(lim: Limits, w: World, v: World)
    requires Inv(lim, w) && Quietly(lim, w, v)
    ensures Inv(lim, v) && SameLocks(w, v) && v.logical == w.logical
  {
    hide Inv, Leads, AllBackground, SameLocks;
    var steps :| AllBackground(steps) && Leads(lim, w, steps, v);
    BackgroundRun(lim, w, steps, v);
  }

  /** w leads to v by some run. */
  ghost predicate Reaches(lim: Limits, w: World, v: World) {
    exists steps :: Leads(lim, w, steps, v)
  }

  lemma QuietlyThen(lim: Limits, w: World, m: World, step: Step)
    requires Quietly(lim, w, m) && Placed(lim, m.c, {}, {}) && Enabled(lim, m, step)
    ensures Reaches(lim, w, Next(lim, m, step))
  {
    hide Placed, Enabled, Next, AllBackground;
    var a :| AllBackground(a) && Leads(lim, w, a, m);
    assert Leads(lim, m, [step], Next(lim, m, step)) by { assert [step][1..] == []; }
    LeadsJoin(lim, w, a, m, [step], Next(lim, m, step));
  }

  // ---- a write as the bytes it puts out --------------------------------------

  /** A write of `data` over `was` cut off after n bytes. */
  function PartlyWritten(was: Block, data: Block, n: nat): (r: Block)
    requires n <= IO_BLOCK_SIZE
    ensures n == IO_BLOCK_SIZE ==> r == data
  {
    data[..n] + was[n..]
  }

  function FirstBytes(n: nat): (s: set<nat>)
    ensures forall i: nat :: i in s <==> i < n
  {
    if n == 0 then {} else FirstBytes(n - 1) + {n - 1}
  }

  /** A flush under way with its first n bytes out. */
  ghost function PartlyFlushed(w: World, p: Ptr, n: nat): World
    requires Here(w, p) && n <= IO_BLOCK_SIZE
  {
    var e := w.c.elems[p];
    World(Put(w.c, p, e.(written := FirstBytes(n))),
          if e.key in w.disk then w.disk[e.key := PartlyWritten(w.disk[e.key], e.buffer, n)] else w.disk, w.logical)
  }

  lemma {:induction false} BytesGoOut(lim: Limits, w: World, p: Ptr, n: nat)
    requires Inv(lim, w) && Here(w, p) && n <= IO_BLOCK_SIZE && w.c.elems[p].flushing && w.c.elems[p].written == {}
    requires n > 0 ==> w.c.elems[p].key in w.disk
    ensures Quietly(lim, w, PartlyFlushed(w, p, n))
    decreases n
  {
    hide Inv, Quietly, PartlyFlushed, Steps, Background;
    if n == 0 {
      NothingOut(w, p);
      QuietlySelf(lim, w);
    } else {
      BytesGoOut(lim, w, p, n - 1);
      QuietlyKeeps(lim, w, PartlyFlushed(w, p, n - 1));
      ByteGoesOut(lim, w, p, n);
      QuietlyJoin(lim, w, PartlyFlushed(w, p, n - 1), PartlyFlushed(w, p, n));
    }
  }

  lemma NothingOut(w: World, p: Ptr)
    requires Here(w, p) && w.c.elems[p].written == {}
    ensures PartlyFlushed(w, p, 0) == w
  {
    hide PartlyWritten;
    var e := w.c.elems[p];
    assert FirstBytes(0) == {};
    if e.key in w.disk { NoneWritten(w.disk[e.key], e.buffer); }
    assert w.c.elems[p := e] == w.c.elems;
  }

  lemma ByteGoesOut(lim: Limits, w: World, p: Ptr, n: nat)
    requires Here(w, p) && 0 < n <= IO_BLOCK_SIZE && w.c.elems[p].flushing && w.c.elems[p].key in w.disk
    requires Placed(lim, PartlyFlushed(w, p, n - 1).c, {}, {})
    ensures Quietly(lim, PartlyFlushed(w, p, n - 1), PartlyFlushed(w, p, n))
  {
    hide Placed, Quietly, PartlyWritten;
    var m := PartlyFlushed(w, p, n - 1);
    QuietlyStep(lim, m, FlushByte(p, n - 1));
    NextByte(w, p, n);
  }

  lemma NextByte(w: World, p: Ptr, n: nat)
    requires Here(w, p) && 0 < n <= IO_BLOCK_SIZE && w.c.elems[p].key in w.disk
    ensures var (m, e) := (PartlyFlushed(w, p, n - 1), w.c.elems[p]);
      PartlyFlushed(w, p, n) == World(Put(m.c, p, m.c.elems[p].(written := m.c.elems[p].written + {n - 1})),
                                      m.disk[e.key := m.disk[e.key][n - 1 := e.buffer[n - 1]]], m.logical)
  {
    hide PartlyWritten;
    var (m, e) := (PartlyFlushed(w, p, n - 1), w.c.elems[p]);
    var a, b := w.disk[e.key], e.buffer;
    OneMoreWritten(a, b, n);
    PutTwice(w.disk, e.key, PartlyWritten(a, b, n - 1), PartlyWritten(a, b, n));
    PutTwice(w.c.elems, p, e.(written := FirstBytes(n - 1)), e.(written := FirstBytes(n)));
  }

  lemma PutTwice<K, V>(m: map<K, V>, k: K, a: V, b: V)
    ensures m[k := a][k := b] == m[k := b]
  {
  }

  lemma NoneWritten(was: Block, data: Block)
    ensures PartlyWritten(was, data, 0) == was
  {
  }

  lemma OneMoreWritten(was: Block, data: Block, n: nat)
    requires 0 < n <= IO_BLOCK_SIZE
    ensures PartlyWritten(was, data, n - 1)[n - 1 := data[n - 1]] == PartlyWritten(was, data, n)
  {
  }
}
