/** The asynchronous I/O queue: hinted insertion into a doubly linked list, and draining by taking the list away (async.c). */
module AsyncQueue {
  import opened Words

  const BINS: nat := 8
  const MAX_DISKS: nat := 256
  const SLOTS: nat := 16
  const SUBMIT_IO: ulong := 0xBEEF_BEEF
  const COMPLETED: ulong := 0xDEED_BEEF

  class AsynchIo {
    var disk: ulong
    var sectorOffset: ulong
    var signature: ulong
    var next: AsynchIo?
    var prior: AsynchIo?

    constructor (disk: ulong, sectorOffset: ulong)
      ensures this.disk == disk && this.sectorOffset == sectorOffset && signature == 0
    {
      this.disk, this.sectorOffset, signature, next, prior := disk, sectorOffset, 0, null, null;
    }
  }

  // ---- a doubly linked list -------------------------------------------------

  function NodeAt(s: seq<AsynchIo>, k: int): AsynchIo? {
    if 0 <= k < |s| then s[k] else null
  }

  /** Following next from head visits exactly s. */
  ghost predicate Forward(head: AsynchIo?, s: seq<AsynchIo>)
    reads s`next
  {
    NoDup(s) && head == NodeAt(s, 0) && forall k {:trigger s[k].next} :: 0 <= k < |s| ==> s[k].next == NodeAt(s, k + 1)
  }

  /** ... and following prior from tail visits it backwards. */
  ghost predicate Linked(head: AsynchIo?, tail: AsynchIo?, s: seq<AsynchIo>)
    reads s`next, s`prior
  {
    Forward(head, s) && tail == NodeAt(s, |s| - 1) && forall k {:trigger s[k].prior} :: 0 <= k < |s| ==> s[k].prior == NodeAt(s, k - 1)
  }

  /** The walk of index_io passes p on its way to io's place. */
  predicate Passes(p: AsynchIo, io: AsynchIo)
    reads p`disk, p`sectorOffset, io`disk, io`sectorOffset
  {
    p.disk < io.disk || p.sectorOffset < io.sectorOffset
  }

  /** Where the walk that starts at k stops. */
  ghost function StopsAt(s: seq<AsynchIo>, k: nat, io: AsynchIo): (r: nat)
    requires k <= |s|
    reads s`disk, s`sectorOffset, io`disk, io`sectorOffset
    ensures k <= r <= |s| && (r < |s| ==> !Passes(s[r], io)) && forall j :: k <= j < r ==> Passes(s[j], io)
    decreases |s| - k
  {
    if k == |s| || !Passes(s[k], io) then k else StopsAt(s, k + 1, io)
  }

  /** Requests for one disk, in order of sector. */
  ghost predicate OneDiskSorted(s: seq<AsynchIo>, disk: nat)
    reads s`disk, s`sectorOffset
  {
    && (forall j :: 0 <= j < |s| ==> s[j].disk == disk)
    && forall j, m :: 0 <= j < m < |s| ==> s[j].sectorOffset <= s[m].sectorOffset
  }

  /** A list of one disk's requests stays in order of sector exactly if no request before the hint has a higher sector; so it does without a hint. */
  lemma HintedStaysSorted(s: seq<AsynchIo>, k0: nat, io: AsynchIo)
    requires k0 <= |s| && OneDiskSorted(s, io.disk)
    ensures OneDiskSorted(Inserted(s, StopsAt(s, k0, io), io), io.disk) <==> forall j :: 0 <= j < k0 ==> s[j].sectorOffset <= io.sectorOffset
  {
    hide StopsAt;
    var k := StopsAt(s, k0, io);
    var r := Inserted(s, k, io);
    assert forall j :: 0 <= j < |r| ==> r[j] == if j < k then s[j] else if j == k then io else s[j - 1];
    if OneDiskSorted(r, io.disk) {
      forall j | 0 <= j < k0 ensures s[j].sectorOffset <= io.sectorOffset { assert r[j] == s[j] && r[k] == io; }
    }
  }

  /** No request comes before one that is below it in both disk and sector. */
  ghost predicate NoneOvertaken(s: seq<AsynchIo>)
    reads s`disk, s`sectorOffset
  {
    forall j, m :: 0 <= j < m < |s| ==> s[m].disk >= s[j].disk || s[m].sectorOffset >= s[j].sectorOffset
  }

  /** The same for requests of any disks: it stays so exactly if no request before the hint is above the new one in both. */
  lemma HintedNotOvertaken(s: seq<AsynchIo>, k0: nat, io: AsynchIo)
    requires k0 <= |s| && NoneOvertaken(s)
    ensures NoneOvertaken(Inserted(s, StopsAt(s, k0, io), io)) <==>
      forall j :: 0 <= j < k0 ==> io.disk >= s[j].disk || io.sectorOffset >= s[j].sectorOffset
  {
    hide StopsAt;
    var k := StopsAt(s, k0, io);
    var r := Inserted(s, k, io);
    assert forall j :: 0 <= j < |r| ==> r[j] == if j < k then s[j] else if j == k then io else s[j - 1];
    if NoneOvertaken(r) {
      forall j | 0 <= j < k0 ensures io.disk >= s[j].disk || io.sectorOffset >= s[j].sectorOffset { assert r[j] == s[j] && r[k] == io; }
    }
  }

  function Inserted(s: seq<AsynchIo>, k: nat, io: AsynchIo): (r: seq<AsynchIo>)
    requires k <= |s|
    ensures |r| == |s| + 1
  {
    s[..k] + [io] + s[k..]
  }

  lemma InsertedAt(s: seq<AsynchIo>, k: nat, io: AsynchIo, j: int)
    requires k <= |s|
    ensures NodeAt(Inserted(s, k, io), j) == if j < k then NodeAt(s, j) else if j == k then io else NodeAt(s, j - 1)
  {
  }

  lemma InsertedOnce(s: seq<AsynchIo>, k: nat, io: AsynchIo)
    requires k <= |s|
    ensures multiset(Inserted(s, k, io)) == multiset(s) + multiset{io}
    ensures io !in s && NoDup(s) ==> NoDup(Inserted(s, k, io))
  {
    assert s == s[..k] + s[k..];
    var r := Inserted(s, k, io);
    if io !in s && NoDup(s) {
      forall i, j | 0 <= i < j < |r| ensures r[i] != r[j] {
        if i != k { assert r[i] in s; }
        if j != k { assert r[j] in s; }
      }
    }
  }

  /** Links io in between s[k - 1] and s[k]. */
  method LinkBetween(head: AsynchIo?, tail: AsynchIo?, io: AsynchIo, p: AsynchIo, ghost s: seq<AsynchIo>, ghost k: nat)
    requires Linked(head, tail, s) && io !in s && 0 < k < |s| && p == s[k]
    modifies s`next, s`prior, io`next, io`prior
    ensures Linked(head, tail, Inserted(s, k, io))
  {
    hide Inserted;
    InsertedOnce(s, k, io);
    InsertedAt(s, k, io, 0);
    InsertedAt(s, k, io, |s|);
    p.prior.next := io;
    io.next := p;
    io.prior := p.prior;
    p.prior := io;
    ghost var r := Inserted(s, k, io);
    forall j | 0 <= j < |r| ensures r[j].next == NodeAt(r, j + 1) && r[j].prior == NodeAt(r, j - 1) {
      InsertedAt(s, k, io, j - 1);
      InsertedAt(s, k, io, j);
      InsertedAt(s, k, io, j + 1);
    }
  }

  method LinkFirst(head: AsynchIo, tail: AsynchIo?, io: AsynchIo, ghost s: seq<AsynchIo>)
    requires Linked(head, tail, s) && io !in s && s != []
    modifies s`next, s`prior, io`next, io`prior
    ensures Linked(io, tail, Inserted(s, 0, io))
  {
    hide Inserted;
    InsertedOnce(s, 0, io);
    InsertedAt(s, 0, io, 0);
    InsertedAt(s, 0, io, |s|);
    io.next := head;
    io.prior := null;
    head.prior := io;
    ghost var r := Inserted(s, 0, io);
    forall j | 0 <= j < |r| ensures r[j].next == NodeAt(r, j + 1) && r[j].prior == NodeAt(r, j - 1) {
      InsertedAt(s, 0, io, j - 1);
      InsertedAt(s, 0, io, j);
      InsertedAt(s, 0, io, j + 1);
    }
  }

  method LinkLast(head: AsynchIo?, last: AsynchIo, io: AsynchIo, ghost s: seq<AsynchIo>)
    requires Linked(head, last, s) && io !in s && s != []
    modifies s`next, s`prior, io`next, io`prior
    ensures Linked(head, io, Inserted(s, |s|, io))
  {
    hide Inserted;
    InsertedOnce(s, |s|, io);
    InsertedAt(s, |s|, io, 0);
    InsertedAt(s, |s|, io, |s|);
    last.next := io;
    io.next := null;
    io.prior := last;
    ghost var r := Inserted(s, |s|, io);
    forall j | 0 <= j < |r| ensures r[j].next == NodeAt(r, j + 1) && r[j].prior == NodeAt(r, j - 1) {
      InsertedAt(s, |s|, io, j - 1);
      InsertedAt(s, |s|, io, j);
      InsertedAt(s, |s|, io, j + 1);
    }
  }

  /** The walk of index_io, from `start`. */
  method FindPlace(start: AsynchIo, io: AsynchIo, ghost s: seq<AsynchIo>, ghost k0: nat)
    returns (p: AsynchIo?, last: AsynchIo?, ghost k: nat)
    requires (forall j {:trigger s[j].next} :: 0 <= j < |s| ==> s[j].next == NodeAt(s, j + 1)) && k0 < |s| && start == s[k0]
    ensures k == StopsAt(s, k0, io) && k <= |s|
    ensures p == NodeAt(s, k) && (p == null ==> last == NodeAt(s, k - 1))
  {
    p, last, k := start, null, k0;
    while p != null && Passes(p, io)
      invariant k0 <= k <= |s| && p == NodeAt(s, k) && (k > k0 ==> last == NodeAt(s, k - 1))
      invariant StopsAt(s, k, io) == StopsAt(s, k0, io)
      decreases |s| - k
    {
      last := p;
      p := p.next;
      k := k + 1;
    }
  }

  /** index_io: from the hint, or the head, to the first request not passed; io goes before it, or at the end. */
  method IndexIo(head0: AsynchIo?, tail0: AsynchIo?, hint: AsynchIo?, io: AsynchIo, ghost s: seq<AsynchIo>, ghost k0: nat)
    returns (head: AsynchIo?, tail: AsynchIo?, ghost k: nat)
    requires Linked(head0, tail0, s) && io !in s && k0 <= |s|
    requires if hint == null then k0 == 0 else k0 < |s| && hint == s[k0]
    modifies s`next, s`prior, io`next, io`prior
    ensures k == old(StopsAt(s, k0, io)) && k <= |s| && Linked(head, tail, Inserted(s, k, io))
  {
    if tail0 == null {
      LinkOnly(io);
      return io, io, 0;
    }
    hide Inserted, Passes, StopsAt, Forward;
    EndsOf(head0, tail0, s);
    var p: AsynchIo?, last: AsynchIo?;
    p, last, k := FindPlace(if hint != null then hint else head0, io, s, k0);
    head, tail := head0, tail0;
    if p == null {
      LinkLast(head0, last, io, s);
      tail := io;
    } else if p.prior != null {
      LinkBetween(head0, tail0, io, p, s, k);
    } else {
      LinkFirst(p, tail0, io, s);
      head := io;
    }
  }

  method LinkOnly(io: AsynchIo)
    modifies io`next, io`prior
    ensures Linked(io, io, Inserted([], 0, io))
  {
    io.next, io.prior := null, null;
    assert Inserted([], 0, io) == [io];
  }

  lemma EndsOf(head: AsynchIo?, tail: AsynchIo?, s: seq<AsynchIo>)
    requires Linked(head, tail, s)
    ensures head == NodeAt(s, 0) && tail == NodeAt(s, |s| - 1)
    ensures forall j {:trigger s[j].next} :: 0 <= j < |s| ==> s[j].next == NodeAt(s, j + 1)
    ensures forall j {:trigger s[j].prior} :: 0 <= j < |s| ==> s[j].prior == NodeAt(s, j - 1)
  {
  }

  // ---- the queue ------------------------------------------------------------

  /** (sector_offset >> 8) & 0xF */
  function Slot(sectorOffset: ulong): (j: nat)
    ensures j < SLOTS
  {
    sectorOffset / 0x100 % SLOTS
  }

  /** disk % 8 */
  function BinOf(disk: nat): (i: nat)
    ensures i < BINS
  {
    disk % BINS
  }

  lemma {:induction false} RowsOfOneBin(r: nat, k: nat)
    ensures BinOf(r + BINS * k) == BinOf(r)
  {
    if k > 0 { RowsOfOneBin(r, k - 1); }
  }

  /** io->disk % MAX_DISKS */
  function RowOf(disk: nat): (r: nat)
    ensures r < MAX_DISKS && BinOf(r) == BinOf(disk)
  {
    RowsOfOneBin(disk % MAX_DISKS, disk / MAX_DISKS * 32);
    disk % MAX_DISKS
  }

  /** Where a request is filed: by bits 8 to 11 of its sector, by its disk among 256 rows, and by its disk among 8 bins. */
  lemma FiledBy(sectorOffset: ulong, disk: nat) returns (turn: nat, low: nat, k: nat, m: nat)
    ensures sectorOffset == turn * 0x1000 + Slot(sectorOffset) * 0x100 + low && low < 0x100 && Slot(sectorOffset) < 16
    ensures disk == 256 * k + RowOf(disk) && RowOf(disk) < 256 && disk == 8 * m + BinOf(disk) && BinOf(disk) < 8
  {
    turn, low, k, m := sectorOffset / 0x1000, sectorOffset % 0x100, disk / 256, disk / 8;
  }

  function Total(lists: seq<seq<AsynchIo>>): nat {
    if lists == [] then 0 else Total(lists[..|lists| - 1]) + |lists[|lists| - 1]|
  }

  lemma {:induction false} TotalPut(lists: seq<seq<AsynchIo>>, i: nat, s: seq<AsynchIo>)
    requires i < |lists|
    ensures Total(lists[i := s]) == Total(lists) - |lists[i]| + |s|
    decreases lists
  {
    var n := |lists| - 1;
    if i < n {
      TotalPut(lists[..n], i, s);
      assert lists[i := s][..n] == lists[..n][i := s];
    } else {
      assert lists[i := s][..n] == lists[..n];
    }
  }

  lemma TotalAdd(lists: seq<seq<AsynchIo>>, s: seq<AsynchIo>)
    ensures Total(lists + [s]) == Total(lists) + |s|
  {
    assert (lists + [s])[..|lists|] == lists;
  }

  /** All for one disk, of row r and slot j, by sector. */
  ghost predicate Ordered(chain: seq<AsynchIo>, r: nat, j: nat)
    reads chain`disk, chain`sectorOffset
  {
    && (forall k :: 0 <= k < |chain| ==> RowOf(chain[k].disk) == r && Slot(chain[k].sectorOffset) == j && chain[k].disk == chain[0].disk)
    && (forall k, m :: 0 <= k < m < |chain| ==> chain[k].sectorOffset <= chain[m].sectorOffset)
  }

  /** Everything on the list is in the system at this place, and the other way round. */
  ghost predicate Holds(w: map<AsynchIo, nat>, s: seq<AsynchIo>, place: nat) {
    (forall n :: n in s ==> n in w && w[n] == place) && (forall n :: n in w && w[n] == place ==> n in s)
  }

  /** The places: bins first, then the hands, then the drains. */
  const IN_HAND: nat := BINS

  function DrainAt(b: nat): nat {
    BINS + 1 + b
  }

  ghost predicate InHand(w: map<AsynchIo, nat>, hands: set<AsynchIo>) {
    (forall n :: n in hands ==> n in w && w[n] == IN_HAND) && (forall n :: n in w && w[n] == IN_HAND ==> n in hands)
  }

  /** Everything at place i moved to a place nobody was at. */
  ghost function Moved(w: map<AsynchIo, nat>, i: nat, place: nat): (r: map<AsynchIo, nat>)
    ensures r.Keys == w.Keys
  {
    map n | n in w :: if w[n] == i then place else w[n]
  }

  lemma MovedHolds(w: map<AsynchIo, nat>, s: seq<AsynchIo>, i: nat, place: nat)
    requires Holds(w, s, i) && i != place && forall n :: n in w ==> w[n] != place
    ensures Holds(Moved(w, i, place), s, place) && Holds(Moved(w, i, place), [], i)
    ensures forall t: seq<AsynchIo>, a :: a != i && a != place && Holds(w, t, a) ==> Holds(Moved(w, i, place), t, a)
  {
  }

  /** A step of somebody: a submission, a drain taking a bin's list, a drain's next turn, the end of a transfer, a late count. */
  datatype Move = Submit(io: AsynchIo) | Begin(bin: nat) | Next(drain: nat) | End(io: AsynchIo) | Tally

  class AioQueue {
    var heads: seq<AsynchIo?>              // disk_io_head
    var tails: seq<AsynchIo?>              // disk_io_tail
    var hash: seq<seq<seq<AsynchIo>>>      // asynch_io_head[r].hash_head[j], each chain in order
    var runs: seq<AsynchIo?>               // `list` of each drain under way
    var submitted: nat
    var completed: nat
    ghost var Lists: seq<seq<AsynchIo>>
    ghost var Batches: seq<seq<AsynchIo>>
    ghost var Hands: set<AsynchIo>         // taken off a drain's list, the transfer not over
    ghost var Marked: nat                  // marked completed, not yet counted
    ghost var Where: map<AsynchIo, nat>    // for each request in the system its bin, its drain, or IN_HAND
    ghost var Accepted: multiset<AsynchIo>
    ghost var Done: multiset<AsynchIo>

    /** Bin i's list, w saying where every request is. */
    ghost predicate QueueOk(w: map<AsynchIo, nat>, i: nat)
      requires i < |Lists| == |heads| == |tails|
      reads this`Lists, this`heads, this`tails, w.Keys`next, w.Keys`prior
    {
      Holds(w, Lists[i], i) && Linked(heads[i], tails[i], Lists[i])
    }

    ghost predicate RunOk(w: map<AsynchIo, nat>, b: nat)
      requires b < |Batches| == |runs|
      reads this`Batches, this`runs, w.Keys`next
    {
      Holds(w, Batches[b], DrainAt(b)) && Forward(runs[b], Batches[b])
    }

    /** A hash chain holds requests that are on their bin's list, all for one disk, by sector. */
    ghost predicate ChainOk(w: map<AsynchIo, nat>, r: nat, j: nat)
      requires r < |hash| && j < |hash[r]|
      reads this`hash, w.Keys`disk, w.Keys`sectorOffset
    {
      && (forall k :: 0 <= k < |hash[r][j]| ==> hash[r][j][k] in w && w[hash[r][j][k]] == BinOf(r))
      && Ordered(hash[r][j], r, j)
    }

    ghost predicate ListsOk(w: map<AsynchIo, nat>)
      reads this`Lists, this`heads, this`tails, w.Keys`next, w.Keys`prior
    {
      |heads| == |tails| == |Lists| == BINS && forall i :: 0 <= i < BINS ==> QueueOk(w, i)
    }

    ghost predicate RunsOk(w: map<AsynchIo, nat>)
      reads this`Batches, this`runs, this`Hands, w.Keys`next, w.Keys`signature
    {
      && |runs| == |Batches| && (forall b :: 0 <= b < |Batches| ==> RunOk(w, b)) && InHand(w, Hands)
      && (forall n :: n in w ==> n.signature == SUBMIT_IO && w[n] < DrainAt(|Batches|))
    }

    ghost predicate HashOk(w: map<AsynchIo, nat>)
      reads this`hash, w.Keys`disk, w.Keys`sectorOffset
    {
      && |hash| == MAX_DISKS && (forall r :: 0 <= r < MAX_DISKS ==> |hash[r]| == SLOTS)
      && (forall r, j :: 0 <= r < MAX_DISKS && 0 <= j < SLOTS ==> ChainOk(w, r, j))
    }

    /** The same requests are at each bin. */
    ghost predicate SameBins(w: map<AsynchIo, nat>, x: map<AsynchIo, nat>) {
      && (forall n :: n in w && w[n] < BINS ==> n in x && x[n] == w[n])
      && (forall n :: n in x && x[n] < BINS ==> n in w && w[n] == x[n])
    }

    /** Requests that are on no bin's list do not matter to the lists and the chains. */
    lemma BinsStay(w: map<AsynchIo, nat>, x: map<AsynchIo, nat>)
      requires ListsOk(w) && HashOk(w) && SameBins(w, x)
      ensures ListsOk(x) && HashOk(x)
    {
      hide RowOf, BinOf, Slot, Ordered, Linked;
      forall a | 0 <= a < BINS ensures QueueOk(x, a) { assert QueueOk(w, a); }
      forall a, c | 0 <= a < MAX_DISKS && 0 <= c < SLOTS ensures ChainOk(x, a, c) { assert ChainOk(w, a, c); }
    }

    /** Drain b's list is one shorter, and what left it is in hand. */
    lemma RunsStay(w: map<AsynchIo, nat>, x: map<AsynchIo, nat>, b: nat, s: seq<AsynchIo>)
      requires |runs| == |Batches| && b < |Batches| && Holds(w, s, DrainAt(b)) && NoDup(s) && s != [] && Batches[b] == s[1..]
      requires (forall c :: 0 <= c < |Batches| && c != b ==> RunOk(w, c)) && Forward(runs[b], s[1..]) && x == w[s[0] := IN_HAND]
      ensures forall c :: 0 <= c < |Batches| ==> RunOk(x, c)
    {
      hide Holds, Forward;
      TakenHolds(w, s, DrainAt(b), IN_HAND);
      forall c | 0 <= c < |Batches| ensures RunOk(x, c) {
        if c != b { assert RunOk(w, c); }
      }
    }

    ghost predicate Accounted()
      reads this`Where, this`Lists, this`Batches, this`Hands, this`Marked, this`submitted, this`completed, this`Accepted, this`Done
    {
      Accounts(submitted, completed + Marked, Inside(), Accepted, Done, Where.Keys)
    }

    /** How many requests are queued, on a drain's list, or in hand. */
    ghost function Inside(): nat
      reads this`Lists, this`Batches, this`Hands
    {
      Total(Lists) + Total(Batches) + |Hands|
    }

    ghost predicate Valid()
      reads this, Where.Keys
      ensures Valid() ==> ListsOk(Where) && RunsOk(Where) && HashOk(Where) && Accounted()
    {
      ListsOk(Where) && RunsOk(Where) && HashOk(Where) && Accounted()
    }

    constructor ()
      ensures Valid() && Where == map[] && submitted == completed == 0
    {
      heads, tails, Lists := seq(BINS, _ => null), seq(BINS, _ => null), seq(BINS, _ => []);
      hash := seq(MAX_DISKS, _ => seq(SLOTS, _ => []));
      runs, Batches, Hands, Marked, Where, submitted, completed := [], [], {}, 0, map[], 0, 0;
      Accepted, Done := multiset{}, multiset{};
      new;
      EmptyTotal(BINS);
    }

    /** hash_disk_io: into the chain by sector; refused if the chain is another disk's. */
    method HashDiskIo(io: AsynchIo) returns (refused: bool)
      requires |hash| == MAX_DISKS && |hash[RowOf(io.disk)]| == SLOTS
      requires Ordered(hash[RowOf(io.disk)][Slot(io.sectorOffset)], RowOf(io.disk), Slot(io.sectorOffset))
      modifies this`hash
      ensures |hash| == MAX_DISKS && |hash[RowOf(io.disk)]| == SLOTS
      ensures var (r, j) := (RowOf(io.disk), Slot(io.sectorOffset)); var was := old(hash[r][j]);
        && (refused <==> was != [] && was[0].disk != io.disk)
        && (refused ==> hash == old(hash))
        && (!refused ==> exists k :: 0 <= k <= |was| && hash[r][j] == Inserted(was, k, io))
        && hash == old(hash)[r := old(hash[r])[j := hash[r][j]]] && Ordered(hash[r][j], r, j)
    {
      var r, j := RowOf(io.disk), Slot(io.sectorOffset);
      var chain := hash[r][j];
      var k := 0;
      while k < |chain| && chain[k].disk == io.disk && chain[k].sectorOffset < io.sectorOffset
        invariant 0 <= k <= |chain| && forall m :: 0 <= m < k ==> chain[m].sectorOffset < io.sectorOffset
        invariant k > 0 ==> chain[0].disk == io.disk
      {
        k := k + 1;
      }
      if k < |chain| && chain[k].disk != io.disk {
        assert chain[0].disk == chain[k].disk;
        assert hash[r][j := hash[r][j]] == hash[r];
        return true;
      }
      var now := chain[..k] + [io] + chain[k..];
      OrderedInserted(chain, r, j, k, io);
      hash := hash[r := hash[r][j := now]];
      assert hash[r][j] == Inserted(chain, k, io);
      return false;
    }

    /** Where the hint of index_io stands on the list: the first request of io's chain, or the list's head. */
    ghost predicate HintAt(io: AsynchIo, k: nat)
      reads this`hash, this`Lists, io`disk, io`sectorOffset
    {
      && |hash| == MAX_DISKS && |hash[RowOf(io.disk)]| == SLOTS && |Lists| == BINS
      && var (s, chain) := (Lists[BinOf(io.disk)], hash[RowOf(io.disk)][Slot(io.sectorOffset)]);
        if chain == [] then k == 0 else k < |s| && s[k] == chain[0]
    }

    /** The first request of io's chain is a node of its bin's list. */
    lemma HintIsListed(io: AsynchIo) returns (k: nat)
      requires Valid()
      ensures HintAt(io, k) && k <= |Lists[BinOf(io.disk)]|
    {
      hide Linked, Forward, Ordered, RowOf, BinOf, Slot;
      var r, j := RowOf(io.disk), Slot(io.sectorOffset);
      assert ChainOk(Where, r, j) && QueueOk(Where, BinOf(io.disk));
      if hash[r][j] == [] { return 0; }
      assert hash[r][j][0] in Lists[BinOf(io.disk)];
      k :| 0 <= k < |Lists[BinOf(io.disk)]| && Lists[BinOf(io.disk)][k] == hash[r][j][0];
    }

    /** Only the list of bin i and io itself have been touched. */
    twostate predicate OnlyBin(i: nat, io: AsynchIo)
      reads this, Where.Keys
    {
      && Where == old(Where)[io := i] && io !in old(Where) && i < BINS && old(|Lists| == |heads| == |tails| == BINS) && |Lists| == |heads| == |tails| == BINS
      && (forall a :: 0 <= a < BINS && a != i ==> Lists[a] == old(Lists[a]) && heads[a] == old(heads[a]) && tails[a] == old(tails[a]))
      && Batches == old(Batches) && runs == old(runs) && hash == old(hash)
      && (forall n :: n in old(Where) && old(Where[n]) != i ==> n.next == old(n.next) && n.prior == old(n.prior))
      && (forall n :: n in old(Where) ==> n.signature == old(n.signature) && n.disk == old(n.disk) && n.sectorOffset == old(n.sectorOffset))
    }

    /** The list of io's bin takes io in. */
    method IndexBin(io: AsynchIo, ghost k0: nat, ghost k: nat)
      requires |heads| == |tails| == |Lists| == BINS && QueueOk(Where, BinOf(io.disk)) && io !in Where
      requires HintAt(io, k0) && k0 <= |Lists[BinOf(io.disk)]| && k == StopsAt(Lists[BinOf(io.disk)], k0, io)
      modifies this`heads, this`tails, this`Lists, this`Where, Where.Keys`next, Where.Keys`prior, io`next, io`prior
      ensures OnlyBin(BinOf(io.disk), io) && QueueOk(Where, BinOf(io.disk))
      ensures var i := BinOf(io.disk); Lists == old(Lists)[i := Inserted(old(Lists)[i], k, io)]
    {
      hide RowOf, BinOf, Slot, Inserted, Passes, StopsAt, Forward, Linked, Ordered, NoDup;
      var i := BinOf(io.disk);
      var chain := hash[RowOf(io.disk)][Slot(io.sectorOffset)];
      ghost var s := Lists[i];
      var head: AsynchIo?, tail: AsynchIo?;
      ghost var at: nat;
      head, tail, at := IndexIo(heads[i], tails[i], if chain == [] then null else chain[0], io, s, k0);
      heads, tails := heads[i := head], tails[i := tail];
      Lists, Where := Lists[i := Inserted(s, k, io)], Where[io := i];
      InsertedHas(s, k, io);
      assert Linked(heads[i], tails[i], Lists[i]);
      assert Holds(Where, Lists[i], i);
    }

    /** index_io under the lock, for a request that is in nobody's hands. */
    method Index(io: AsynchIo, ghost k0: nat, ghost k: nat)
      requires ListsOk(Where) && RunsOk(Where) && HashOk(Where) && io !in Where && io.signature == SUBMIT_IO
      requires HintAt(io, k0) && k0 <= |Lists[BinOf(io.disk)]| && k == StopsAt(Lists[BinOf(io.disk)], k0, io)
      modifies this`heads, this`tails, this`Lists, this`Where, Where.Keys`next, Where.Keys`prior, io`next, io`prior
      ensures ListsOk(Where) && RunsOk(Where) && HashOk(Where)
      ensures Where == old(Where)[io := BinOf(io.disk)]
      ensures var i := BinOf(io.disk); Lists == old(Lists)[i := Inserted(old(Lists)[i], k, io)]
    {
      hide NoDup, RowOf, BinOf, Slot, Inserted, StopsAt, Passes, Accounted, Total, HintAt, Ordered, Holds;
      var i := BinOf(io.disk);
      ghost var w := Where;
      IndexBin(io, k0, k);
      PutHolds(w, io, i);
      forall a | 0 <= a < BINS && a != i ensures QueueOk(Where, a) {
        assert old(QueueOk(Where, a));
        AtPlace(w, Lists[a], a);
        assert forall n :: n in Lists[a] ==> n.next == old(n.next) && n.prior == old(n.prior);
        assert Linked(heads[a], tails[a], Lists[a]);
      }
      forall b | 0 <= b < |Batches| ensures RunOk(Where, b) {
        assert old(RunOk(Where, b));
        AtPlace(w, Batches[b], DrainAt(b));
        assert forall n :: n in Batches[b] ==> n.next == old(n.next);
        assert Forward(runs[b], Batches[b]);
      }
      forall a, c | 0 <= a < MAX_DISKS && 0 <= c < SLOTS ensures ChainOk(Where, a, c) {
        assert old(ChainOk(Where, a, c));
      }
    }

    /** hash_disk_io for a request that is on its bin's list already. */
    method Hash(io: AsynchIo)
      requires ListsOk(Where) && RunsOk(Where) && HashOk(Where) && io in Where && Where[io] == BinOf(io.disk)
      modifies this`hash
      ensures ListsOk(Where) && RunsOk(Where) && HashOk(Where)
    {
      hide RowOf, BinOf, Slot, Ordered, Inserted;
      ghost var r, j := RowOf(io.disk), Slot(io.sectorOffset);
      assert ChainOk(Where, r, j);
      ghost var was := hash[r][j];
      var refused := HashDiskIo(io);
      if !refused {
        ghost var k :| 0 <= k <= |was| && hash[r][j] == Inserted(was, k, io);
        InsertedHas(was, k, io);
        assert forall m :: 0 <= m < |hash[r][j]| ==> hash[r][j][m] in hash[r][j];
      }
      forall a, c | 0 <= a < MAX_DISKS && 0 <= c < SLOTS ensures ChainOk(Where, a, c) {
        assert old(ChainOk(Where, a, c));
      }
    }

    /** index_io, then hash_disk_io. */
    method Enlist(io: AsynchIo, ghost k0: nat, ghost k: nat)
      requires ListsOk(Where) && RunsOk(Where) && HashOk(Where) && io !in Where && io.signature == SUBMIT_IO && |Lists| == BINS
      requires HintAt(io, k0) && k0 <= |Lists[BinOf(io.disk)]| && k == StopsAt(Lists[BinOf(io.disk)], k0, io)
      modifies this`heads, this`tails, this`Lists, this`Where, this`hash, Where.Keys`next, Where.Keys`prior, io`next, io`prior
      ensures ListsOk(Where) && RunsOk(Where) && HashOk(Where) && Where == old(Where)[io := BinOf(io.disk)]
      ensures var i := BinOf(io.disk); Lists == old(Lists)[i := Inserted(old(Lists)[i], k, io)]
      ensures Inside() == old(Inside()) + 1
    {
      hide RowOf, BinOf, Slot, Inserted, StopsAt, HashOk, HintAt, Total, ListsOk, RunsOk;
      var i := BinOf(io.disk);
      ghost var lists := Lists;
      Index(io, k0, k);
      Hash(io);
      TotalPut(lists, i, Lists[i]);
      assert Lists == lists[i := Lists[i]];
    }

    /** insert_io from index_io on. */
    method Admit(io: AsynchIo, ghost k0: nat, ghost k: nat)
      requires Valid() && io !in Where && io.signature == SUBMIT_IO && |Lists| == BINS
      requires HintAt(io, k0) && k0 <= |Lists[BinOf(io.disk)]| && k == StopsAt(Lists[BinOf(io.disk)], k0, io)
      modifies this`heads, this`tails, this`Lists, this`Where, this`hash, this`submitted, this`Accepted
      modifies Where.Keys`next, Where.Keys`prior, io`next, io`prior
      ensures Valid() && Where == old(Where)[io := BinOf(io.disk)]
      ensures var i := BinOf(io.disk); Lists == old(Lists)[i := Inserted(old(Lists)[i], k, io)]
      ensures submitted == old(submitted) + 1 && Accepted == old(Accepted) + multiset{io}
    {
      hide RowOf, BinOf, Slot, Inserted, StopsAt, HashOk, HintAt, ListsOk, RunsOk, Accounts, Inside;
      ghost var inside, w := Inside(), Where.Keys;
      PutKeys(Where, io, BinOf(io.disk));
      CountIn(io, inside, w);
      Enlist(io, k0, k);
      Whole(inside + 1, w + {io});
    }

    /** aio_submitted++ */
    method CountIn(io: AsynchIo, ghost inside: nat, ghost w: set<AsynchIo>)
      requires Accounts(submitted, completed + Marked, inside, Accepted, Done, w) && io !in w
      modifies this`submitted, this`Accepted
      ensures Accounts(submitted, completed + Marked, inside + 1, Accepted, Done, w + {io})
      ensures submitted == old(submitted) + 1 && Accepted == old(Accepted) + multiset{io}
    {
      OneMore(submitted, completed + Marked, inside, Accepted, Done, w, io);
      submitted := submitted + 1;
      Accepted := Accepted + multiset{io};
    }

    lemma Whole(inside: nat, w: set<AsynchIo>)
      requires ListsOk(Where) && RunsOk(Where) && HashOk(Where)
      requires Accounts(submitted, completed + Marked, inside, Accepted, Done, w) && Inside() == inside && Where.Keys == w
      ensures Valid()
    {
    }

    /** insert_io: a request that is already in the system is refused; any other goes into its bin's list at the place the hint leads to. */
    method InsertIo(io: AsynchIo) returns (accepted: bool, ghost k0: nat, ghost k: nat)
      requires Valid()
      modifies this`heads, this`tails, this`Lists, this`Where, this`hash, this`submitted, this`Accepted
      modifies Where.Keys`next, Where.Keys`prior, io`next, io`prior, io`signature
      ensures Valid() && accepted == (old(io.signature) != SUBMIT_IO) && io.signature == SUBMIT_IO && (accepted ==> io !in old(Where))
      ensures io in old(Hands) ==> !accepted
      ensures !accepted ==> unchanged(this) && unchanged(Where.Keys) && unchanged(io)
      ensures accepted ==> |old(Lists)| == BINS && old(HintAt(io, k0)) && k0 <= |old(Lists)[BinOf(io.disk)]|
      ensures accepted ==> k == old(StopsAt(Lists[BinOf(io.disk)], k0, io)) && Where == old(Where)[io := BinOf(io.disk)]
      ensures var i := BinOf(io.disk); accepted ==> Lists == old(Lists)[i := Inserted(old(Lists)[i], k, io)]
      ensures accepted ==> submitted == old(submitted) + 1 && Accepted == old(Accepted) + multiset{io}
    {
      k0, k := 0, 0;
      NotYetIn(io);
      if io.signature == SUBMIT_IO { return false, 0, 0; }
      hide RowOf, BinOf, Slot, Inserted, StopsAt, HashOk, HintAt, QueueOk, RunOk, Total, ListsOk, RunsOk, Accounted;
      k0 := HintIsListed(io);
      k := StopsAt(Lists[BinOf(io.disk)], k0, io);
      io.signature := SUBMIT_IO;
      Admit(io, k0, k);
      return true, k0, k;
    }

    lemma NotYetIn(io: AsynchIo)
      requires Valid()
      ensures (io in Where ==> io.signature == SUBMIT_IO) && (io in Hands ==> io in Where)
      ensures |Lists| == BINS
    {
    }

    /** Every chain of every disk of the bin is emptied. */
    method ClearRows(i: nat)
      requires i < BINS && |hash| == MAX_DISKS && forall r :: 0 <= r < MAX_DISKS ==> |hash[r]| == SLOTS
      modifies this`hash
      ensures |hash| == MAX_DISKS && forall r :: 0 <= r < MAX_DISKS ==> |hash[r]| == SLOTS
      ensures forall r, j :: 0 <= r < MAX_DISKS && 0 <= j < SLOTS ==> hash[r][j] == if BinOf(r) == i then [] else old(hash)[r][j]
    {
      hide BinOf;
      var r := 0;
      while r < MAX_DISKS
        invariant r <= MAX_DISKS == |hash| && forall a :: 0 <= a < MAX_DISKS ==> |hash[a]| == SLOTS
        invariant forall a :: r <= a < MAX_DISKS ==> hash[a] == old(hash)[a]
        invariant forall a, c :: 0 <= a < r && 0 <= c < SLOTS ==> hash[a][c] == if BinOf(a) == i then [] else old(hash)[a][c]
      {
        if BinOf(r) == i {
          ghost var before := hash;
          var j := 0;
          while j < SLOTS
            invariant j <= SLOTS && |hash| == MAX_DISKS && |hash[r]| == SLOTS
            invariant forall a :: 0 <= a < MAX_DISKS && a != r ==> hash[a] == before[a]
            invariant forall c :: 0 <= c < j ==> hash[r][c] == []
          {
            hash := hash[r := hash[r][j := []]];
            j := j + 1;
          }
        }
        r := r + 1;
      }
    }

    /** The drain takes a bin's whole list away and clears the hash rows that lead to it. */
    method TakeList(i: nat) returns (b: nat)
      requires Valid() && i < BINS
      modifies this`heads, this`tails, this`Lists, this`runs, this`Batches, this`Where, this`hash
      ensures Valid() && b == |old(Batches)| && Batches == old(Batches) + [old(Lists)[i]] && Lists == old(Lists)[i := []]
      ensures runs == old(runs) + [old(heads)[i]] && heads[i] == null && Where.Keys == old(Where).Keys
      ensures Hands == old(Hands) && Marked == old(Marked) && Done == old(Done) && Accepted == old(Accepted)
    {
      hide RowOf, BinOf, Slot, Ordered, NoDup, Total, RunsOk, QueueOk, Moved;
      ghost var lists, batches, w := Lists, Batches, Where;
      ClearBin(i);
      b := MoveList(i);
      TotalAdd(batches, lists[i]);
      TotalPut(lists, i, []);
    }

    method ClearBin(i: nat)
      requires i < BINS && HashOk(Where)
      modifies this`hash
      ensures HashOk(Where) && forall r, j :: 0 <= r < MAX_DISKS && 0 <= j < SLOTS && BinOf(r) == i ==> hash[r][j] == []
    {
      hide RowOf, BinOf, Slot;
      ClearRows(i);
      forall a, c | 0 <= a < MAX_DISKS && 0 <= c < SLOTS ensures ChainOk(Where, a, c) { assert old(ChainOk(Where, a, c)); }
    }

    /** list = disk_io_head[i]; disk_io_head[i] = disk_io_tail[i] = 0 */
    method TakeAway(i: nat) returns (b: nat)
      requires ListsOk(Where) && RunsOk(Where) && i < BINS
      modifies this`heads, this`tails, this`Lists, this`runs, this`Batches
      ensures |heads| == |tails| == |Lists| == |old(Lists)| == BINS && b == |old(Batches)| == |old(runs)| && |old(heads)| == BINS
      ensures Batches == old(Batches) + [old(Lists)[i]] && Lists == old(Lists)[i := []]
      ensures runs == old(runs) + [old(heads)[i]] && heads[i] == tails[i] == null
      ensures (forall a :: 0 <= a < BINS && a != i ==> QueueOk(Where, a)) && (forall c :: 0 <= c < b ==> RunOk(Where, c))
      ensures Holds(Where, old(Lists)[i], i) && Forward(runs[b], old(Lists)[i])
    {
      hide Holds, Forward, NoDup;
      b := |runs|;
      assert QueueOk(Where, i);
      runs, Batches := runs + [heads[i]], Batches + [Lists[i]];
      heads, tails, Lists := heads[i := null], tails[i := null], Lists[i := []];
      forall a | 0 <= a < BINS && a != i ensures QueueOk(Where, a) { assert old(QueueOk(Where, a)); }
      forall c | 0 <= c < b ensures RunOk(Where, c) { assert old(RunOk(Where, c)); }
    }

    method MoveList(i: nat) returns (b: nat)
      requires ListsOk(Where) && RunsOk(Where) && HashOk(Where) && i < BINS
      requires forall r, j :: 0 <= r < MAX_DISKS && 0 <= j < SLOTS && BinOf(r) == i ==> hash[r][j] == []
      modifies this`heads, this`tails, this`Lists, this`runs, this`Batches, this`Where
      ensures ListsOk(Where) && RunsOk(Where) && HashOk(Where)
      ensures b == |old(Batches)| && Batches == old(Batches) + [old(Lists)[i]] && Lists == old(Lists)[i := []]
      ensures runs == old(runs) + [old(heads)[i]] && heads[i] == null && Where == Moved(old(Where), i, DrainAt(b))
    {
      hide BinOf, Moved, Forward, Holds, QueueOk, RunOk, ChainOk, InHand;
      ghost var taken := Lists[i];
      b := TakeAway(i);
      ListsMoved(Where, i, b, taken);
      RunsMoved(Where, i, b, taken);
      ChainsMoved(Where, i, b);
      Where := Moved(Where, i, DrainAt(b));
    }

    lemma ListsMoved(w: map<AsynchIo, nat>, i: nat, b: nat, taken: seq<AsynchIo>)
      requires |heads| == |tails| == |Lists| == BINS && i < BINS && Holds(w, taken, i) && forall n :: n in w ==> w[n] != DrainAt(b)
      requires Lists[i] == [] && heads[i] == tails[i] == null && forall a :: 0 <= a < BINS && a != i ==> QueueOk(w, a)
      ensures ListsOk(Moved(w, i, DrainAt(b)))
    {
      hide Moved, Holds;
      MovedHolds(w, taken, i, DrainAt(b));
      forall a | 0 <= a < BINS ensures QueueOk(Moved(w, i, DrainAt(b)), a) {
        if a != i { assert QueueOk(w, a); }
      }
    }

    lemma RunsMoved(w: map<AsynchIo, nat>, i: nat, b: nat, taken: seq<AsynchIo>)
      requires |runs| == |Batches| == b + 1 && i < BINS && Holds(w, taken, i) && forall n :: n in w ==> w[n] < DrainAt(b) && n.signature == SUBMIT_IO
      requires Batches[b] == taken && Forward(runs[b], taken) && (forall c :: 0 <= c < b ==> RunOk(w, c)) && InHand(w, Hands)
      ensures RunsOk(Moved(w, i, DrainAt(b)))
    {
      hide Moved, Holds, Forward;
      MovedHolds(w, taken, i, DrainAt(b));
      MovedPlaces(w, i, DrainAt(b));
      forall c | 0 <= c <= b ensures RunOk(Moved(w, i, DrainAt(b)), c) {
        if c < b { assert RunOk(w, c); }
      }
    }

    lemma ChainsMoved(w: map<AsynchIo, nat>, i: nat, b: nat)
      requires HashOk(w) && i < BINS && forall r, j :: 0 <= r < MAX_DISKS && 0 <= j < SLOTS && BinOf(r) == i ==> hash[r][j] == []
      ensures HashOk(Moved(w, i, DrainAt(b)))
    {
      hide RowOf, BinOf, Slot, Ordered, Moved;
      MovedPlaces(w, i, DrainAt(b));
      forall a, c | 0 <= a < MAX_DISKS && 0 <= c < SLOTS ensures ChainOk(Moved(w, i, DrainAt(b)), a, c) { assert ChainOk(w, a, c); }
    }

    /** io = list; list = list->next; io->next = io->prior = 0 */
    method Unlink(b: nat) returns (io: AsynchIo)
      requires ListsOk(Where) && RunsOk(Where) && HashOk(Where) && b < |runs| && runs[b] != null
      modifies this`runs, this`Batches, Where.Keys`next, Where.Keys`prior
      ensures ListsOk(Where) && HashOk(Where) && |runs| == |Batches| == |old(runs)| == |old(Batches)| && NoDup(old(Batches)[b])
      ensures old(Batches)[b] != [] && io == old(Batches)[b][0] && Batches == old(Batches)[b := old(Batches)[b][1..]]
      ensures Holds(Where, old(Batches)[b], DrainAt(b)) && Forward(runs[b], Batches[b])
      ensures forall c :: 0 <= c < |Batches| && c != b ==> RunOk(Where, c)
    {
      assert RunOk(Where, b);
      hide RowOf, BinOf, Slot, Ordered, Holds, Linked;
      io := runs[b];
      ghost var s := Batches[b];
      AtPlace(Where, s, DrainAt(b));
      runs := runs[b := io.next];
      io.next, io.prior := null, null;
      Batches := Batches[b := s[1..]];
      forall a | 0 <= a < BINS ensures QueueOk(Where, a) {
        assert old(QueueOk(Where, a));
        AtPlace(Where, Lists[a], a);
      }
      forall c | 0 <= c < |Batches| && c != b ensures RunOk(Where, c) {
        assert old(RunOk(Where, c));
        AtPlace(Where, Batches[c], DrainAt(c));
      }
    }

    /** The drain takes the next request off its own list; to everybody else it is still submitted. */
    method Detach(b: nat) returns (io: AsynchIo)
      requires ListsOk(Where) && RunsOk(Where) && HashOk(Where) && b < |runs| && runs[b] != null
      modifies this`runs, this`Batches, this`Hands, this`Where, Where.Keys`next, Where.Keys`prior
      ensures ListsOk(Where) && RunsOk(Where) && HashOk(Where)
      ensures |runs| == |old(runs)| == |old(Batches)| && old(Batches)[b] != [] && io == old(Batches)[b][0]
      ensures Batches == old(Batches)[b := old(Batches)[b][1..]] && Where == old(Where)[io := IN_HAND]
      ensures io in old(Where) && io !in old(Hands) && Hands == old(Hands) + {io}
    {
      hide ListsOk, HashOk, Forward, RunOk, Holds;
      ghost var s, w := Batches[b], Where;
      io := Unlink(b);
      AtPlace(w, s, DrainAt(b));
      Where, Hands := w[io := IN_HAND], Hands + {io};
      BinsStay(w, Where);
      RunsStay(w, Where, b, s);
    }

    /** A turn of a drain begins: the request is in hand. */
    method TakeNext(b: nat) returns (io: AsynchIo)
      requires Valid() && b < |runs| && runs[b] != null
      modifies this`runs, this`Batches, this`Hands, this`Where, Where.Keys`next, Where.Keys`prior
      ensures Valid() && |runs| == |old(runs)| == |old(Batches)| && old(Batches)[b] != [] && io == old(Batches)[b][0]
      ensures Batches == old(Batches)[b := old(Batches)[b][1..]] && Where == old(Where)[io := IN_HAND]
      ensures io in old(Where) && io !in old(Hands) && Hands == old(Hands) + {io}
      ensures Lists == old(Lists) && Marked == old(Marked) && Done == old(Done) && Accepted == old(Accepted)
    {
      hide RowOf, BinOf, Slot, HashOk, Total, ListsOk, RunsOk, Accounts, QueueOk, RunOk, Holds, NoDup;
      ghost var batches, w, inside := Batches, Where, Inside();
      io := Detach(b);
      TotalPut(batches, b, batches[b][1..]);
      PutKeys(w, io, IN_HAND);
      Whole(inside, w.Keys);
    }

    /** The request leaves the drain's hands. */
    method Release(io: AsynchIo)
      requires ListsOk(Where) && RunsOk(Where) && HashOk(Where) && io in Hands
      modifies this`Hands, this`Where, io`signature
      ensures ListsOk(Where) && RunsOk(Where) && HashOk(Where) && io.signature == COMPLETED && io in old(Where)
      ensures Where == old(Where) - {io} && Hands == old(Hands) - {io}
    {
      hide Linked, Forward, Holds, HashOk, ListsOk;
      ghost var w := Where;
      io.signature := COMPLETED;
      Where, Hands := w - {io}, Hands - {io};
      BinsStay(w, Where);
      LessHolds(w, io);
      forall c | 0 <= c < |Batches| ensures RunOk(Where, c) { assert RunOk(w, c); }
    }

    /** Its transfer is over: it is marked completed, and from now on it can be submitted again. */
    method Finish(io: AsynchIo)
      requires Valid() && io in Hands
      modifies this`Hands, this`Where, this`Marked, this`Done, io`signature
      ensures Valid() && io.signature == COMPLETED && Where == old(Where) - {io} && Hands == old(Hands) - {io}
      ensures Marked == old(Marked) + 1 && Done == old(Done) + multiset{io}
      ensures Lists == old(Lists) && Batches == old(Batches) && runs == old(runs) && Accepted == old(Accepted)
    {
      hide ListsOk, RunsOk, HashOk, Accounts, Total;
      ghost var w, inside := Where, Inside();
      Release(io);
      LessKeys(w, io);
      CountOut(io, inside, w.Keys);
      Whole(inside - 1, w.Keys - {io});
    }

    ghost method CountOut(io: AsynchIo, inside: nat, w: set<AsynchIo>)
      requires Accounts(submitted, completed + Marked, inside, Accepted, Done, w) && io in w && inside > 0
      modifies this`Marked, this`Done
      ensures Accounts(submitted, completed + Marked, inside - 1, Accepted, Done, w - {io})
      ensures Marked == old(Marked) + 1 && Done == old(Done) + multiset{io}
    {
      OneLess(submitted, completed + Marked, inside, Accepted, Done, w, io);
      Marked := Marked + 1;
      Done := Done + multiset{io};
    }

    /** aio_completed++, some time after the mark. */
    method Count()
      requires Valid() && Marked > 0
      modifies this`completed, this`Marked
      ensures Valid() && completed == old(completed) + 1 && Marked == old(Marked) - 1
      ensures Lists == old(Lists) && Batches == old(Batches) && runs == old(runs) && Accepted == old(Accepted)
      ensures Hands == old(Hands) && Where == old(Where) && Done == old(Done)
    {
      hide ListsOk, RunsOk, HashOk, Accounts;
      completed := completed + 1;
      Marked := Marked - 1;
    }

    /** A request in hand is submitted to everybody else: another submission of it is refused, and no list has it. */
    lemma LeftHand(io: AsynchIo)
      requires Valid() && io in Hands
      ensures io in Where && Where[io] == IN_HAND && io.signature == SUBMIT_IO && Inside() > 0
      ensures (forall i :: 0 <= i < |Lists| ==> io !in Lists[i]) && (forall b :: 0 <= b < |Batches| ==> io !in Batches[b])
    {
      hide Linked, Forward;
      forall i | 0 <= i < |Lists| ensures io !in Lists[i] { assert QueueOk(Where, i); }
      forall b | 0 <= b < |Batches| ensures io !in Batches[b] { assert RunOk(Where, b); }
    }

    // ---- a drain while others submit -----------------------------------------

    /** Others submit some of the requests from the a-th on; those in took were accepted. */
    method Arrive(arrivals: seq<AsynchIo>, a: nat, ghost i: nat, ghost all: set<AsynchIo>) returns (next: nat, ghost took: seq<AsynchIo>)
      requires Valid() && a <= |arrivals| && i < BINS && Where.Keys <= all && forall n :: n in arrivals ==> n in all
      modifies this`heads, this`tails, this`Lists, this`Where, this`hash, this`submitted, this`Accepted
      modifies all`next, all`prior, all`signature
      ensures Valid() && a <= next <= |arrivals| && |took| <= next - a && Where.Keys <= all
      ensures |Lists| == |old(Lists)| == BINS && Accepted == old(Accepted) + multiset(took)
      ensures runs == old(runs) && Batches == old(Batches) && Hands == old(Hands) && Marked == old(Marked) && Done == old(Done)
      ensures multiset(Lists[i]) == old(multiset(Lists[i])) + multiset(AtBin(took, i))
    {
      hide BinOf, RowOf, Slot, ListsOk, RunsOk, HashOk, Accounted, HintAt, StopsAt, Inserted, AtBin;
      BinFacts(i);
      next, took := a, [];
      assert AtBin([], i) == [] by { AtNoBin(i); }
      var stop: bool := *;
      while next < |arrivals| && !stop
        invariant Valid() && a <= next <= |arrivals| && |took| <= next - a && Where.Keys <= all
        invariant |Lists| == BINS && Accepted == old(Accepted) + multiset(took)
        invariant multiset(Lists[i]) == old(multiset(Lists[i])) + multiset(AtBin(took, i))
      {
        var io := arrivals[next];
        ghost var k0: nat, k: nat;
        ghost var lists := Lists;
        var accepted: bool;
        accepted, k0, k := InsertIo(io);
        if accepted {
          InsertedOnce(lists[BinOf(io.disk)], k, io);
          AtBinPlus(took, io, i);
          took := took + [io];
        }
        next := next + 1;
        stop := *;
      }
    }

    /** The transfer of a request in hand ends: it is marked, and counted some time later. */
    method EndTurn(io: AsynchIo, arrivals: seq<AsynchIo>, a: nat, ghost i: nat, ghost all: set<AsynchIo>) returns (next: nat, ghost took: seq<AsynchIo>)
      requires Valid() && io in Hands && a <= |arrivals| && i < BINS && Where.Keys <= all && forall n :: n in arrivals ==> n in all
      requires io in Where
      modifies this, all`next, all`prior, all`signature
      ensures Valid() && a <= next <= |arrivals| && |took| <= next - a && Where.Keys <= all
      ensures runs == old(runs) && Batches == old(Batches) && Hands == old(Hands) - {io} && Marked == old(Marked) && Done == old(Done) + multiset{io}
      ensures |Lists| == |old(Lists)| == BINS && Accepted == old(Accepted) + multiset(took)
      ensures multiset(Lists[i]) == old(multiset(Lists[i])) + multiset(AtBin(took, i))
    {
      hide BinOf, AioQueue.Valid, AtBin, ListsOk, RunsOk, HashOk, Accounted, Inside;
      BinFacts(i);
      Finish(io);
      next, took := Arrive(arrivals, a, i, all);
      Count();
    }

    /** One turn of a drain: the request is taken in hand, transferred, marked and counted, while others submit in between. */
    method Turn(b: nat, arrivals: seq<AsynchIo>, a: nat, ghost i: nat, ghost all: set<AsynchIo>) returns (next: nat, ghost took: seq<AsynchIo>)
      requires Valid() && b < |runs| && runs[b] != null && a <= |arrivals| && i < BINS && Where.Keys <= all
      requires forall n :: n in arrivals ==> n in all
      modifies this, all`next, all`prior, all`signature
      ensures Valid() && a <= next <= |arrivals| && |took| <= next - a && Where.Keys <= all
      ensures |runs| == |old(runs)| == |old(Batches)| && old(Batches)[b] != [] && Batches == old(Batches)[b := old(Batches)[b][1..]]
      ensures Hands == old(Hands) && Marked == old(Marked) && Done == old(Done) + multiset{old(Batches)[b][0]}
      ensures |Lists| == |old(Lists)| == BINS && Accepted == old(Accepted) + multiset(took)
      ensures multiset(Lists[i]) == old(multiset(Lists[i])) + multiset(AtBin(took, i))
    {
      hide BinOf, AioQueue.Valid, AtBin, ListsOk, RunsOk, HashOk, Accounted, Inside;
      BinFacts(i);
      var io := TakeNext(b);
      LeftHand(io);
      ghost var first, second;
      next, first := Arrive(arrivals, a, i, all);
      LeftHand(io);
      ghost var mine := AtBin(first, i);
      next, second := EndTurn(io, arrivals, next, i, all);
      assert AtBin(first, i) == mine;
      took := first + second;
      AtBinSum(first, second, i);
    }

    /** One list that a drain has taken away, to its end. */
    method Drain(b: nat, arrivals: seq<AsynchIo>, a: nat, ghost i: nat, ghost all: set<AsynchIo>) returns (next: nat, ghost took: seq<AsynchIo>)
      requires Valid() && b < |Batches| && a <= |arrivals| && i < BINS && |Lists| == BINS && Lists[i] == [] && Where.Keys <= all
      requires forall n :: n in arrivals ==> n in all
      modifies this, all`next, all`prior, all`signature
      ensures Valid() && a <= next <= |arrivals| && Where.Keys <= all
      ensures Hands == old(Hands) && Marked == old(Marked) && Done == old(Done) + multiset(old(Batches)[b])
      ensures |Lists| == BINS && Accepted == old(Accepted) + multiset(took)
      ensures multiset(Lists[i]) == multiset(AtBin(took, i)) && |Lists[i]| <= next - a
    {
      hide BinOf, AioQueue.Valid, AtBin, ListsOk, RunsOk, HashOk, Accounted;
      ghost var s, done := Batches[b], Done;
      next, took := a, [];
      assert AtBin([], i) == [] by { AtNoBin(i); }
      ghost var k := 0;
      assert s[0..] == s && s[..0] == [];
      BinFacts(i);
      RunFacts(b);
      while runs[b] != null
        invariant Valid() && a <= next <= |arrivals| && |took| <= next - a && Where.Keys <= all
        invariant b < |runs| == |Batches| && (runs[b] == null <==> Batches[b] == []) && k <= |s| && Batches[b] == s[k..]
        invariant Hands == old(Hands) && Marked == old(Marked) && Done == done + multiset(s[..k])
        invariant |Lists| == BINS && Accepted == old(Accepted) + multiset(took) && multiset(Lists[i]) == multiset(AtBin(took, i))
        decreases |s| - k
      {
        ghost var t;
        next, t := Turn(b, arrivals, next, i, all);
        AtBinSum(took, t, i);
        took := took + t;
        assert s[..k + 1] == s[..k] + [s[k]] && s[k..][1..] == s[k + 1..];
        k := k + 1;
        RunFacts(b);
      }
      assert s[..k] == s;
      assert |multiset(Lists[i])| == |multiset(AtBin(took, i))|;
      AtBinFits(took, i);
    }

    /** The bin's list is taken and drained. */
    method Round(arrivals: seq<AsynchIo>, a: nat, i: nat, ghost all: set<AsynchIo>) returns (next: nat, ghost took: seq<AsynchIo>)
      requires Valid() && a <= |arrivals| && i < BINS && |Lists| == BINS && Where.Keys <= all && forall n :: n in arrivals ==> n in all
      modifies this, all`next, all`prior, all`signature
      ensures Valid() && a <= next <= |arrivals| && Where.Keys <= all && Hands == old(Hands) && Marked == old(Marked)
      ensures |Lists| == BINS && |Lists[i]| <= next - a && Accepted == old(Accepted) + multiset(took)
      ensures Done + multiset(Lists[i]) == old(Done) + old(multiset(Lists[i])) + multiset(AtBin(took, i))
    {
      hide BinOf, AioQueue.Valid, AtBin, ListsOk, RunsOk, HashOk, Accounted;
      var b := TakeList(i);
      next, took := Drain(b, arrivals, a, i, all);
    }

    /** process_sync_io: lists are taken and drained until the bin is empty, whatever others submit meanwhile. Every request that was on
        the bin's list, or was accepted for it, is completed once, and no other. */
    method ProcessIo(disk: nat, arrivals: seq<AsynchIo>, ghost all: set<AsynchIo>) returns (ghost took: seq<AsynchIo>)
      requires Valid() && Where.Keys <= all && forall n :: n in arrivals ==> n in all
      modifies this, all`next, all`prior, all`signature
      ensures Valid() && heads[BinOf(disk)] == null && Lists[BinOf(disk)] == [] && Hands == old(Hands) && Marked == old(Marked)
      ensures Accepted == old(Accepted) + multiset(took)
      ensures Done == old(Done) + multiset(old(Lists)[BinOf(disk)]) + multiset(AtBin(took, BinOf(disk)))
      ensures completed == old(completed) + |old(Lists)[BinOf(disk)]| + |AtBin(took, BinOf(disk))|
    {
      hide BinOf, AioQueue.Valid, AtBin, ListsOk, RunsOk, HashOk, Accounted;
      var i := BinOf(disk);
      BinFacts(i);
      Counted();
      ghost var s, done, acc := Lists[i], Done, Accepted;
      took := [];
      assert AtBin([], i) == [] by { AtNoBin(i); }
      var a := 0;
      while heads[i] != null
        invariant Valid() && a <= |arrivals| && Where.Keys <= all && Hands == old(Hands) && Marked == old(Marked)
        invariant |Lists| == |heads| == BINS && (heads[i] == null <==> Lists[i] == []) && Accepted == acc + multiset(took)
        invariant Done + multiset(Lists[i]) == done + multiset(s) + multiset(AtBin(took, i))
        decreases |arrivals| - a + |Lists[i]|
      {
        ghost var t;
        a, t := Round(arrivals, a, i, all);
        AtBinSum(took, t, i);
        took := took + t;
        BinFacts(i);
      }
      Counted();
    }

    lemma Counted()
      requires Valid()
      ensures completed + Marked == |Done|
    {
      hide ListsOk, RunsOk, HashOk;
    }

    /** Whatever inserts and turns of drains have run in between: every request has been completed as often as it was accepted, less one
        if it is in the system now, which is in a queue, on a drain's list, or in hand; what was submitted is the completed, the marked,
        the queued, the drained and those in hand; and when the counters meet, everything accepted has been completed. */
    lemma ExactlyOnce(io: AsynchIo)
      requires Valid()
      ensures Accepted[io] == Done[io] + (if io in Where then 1 else 0)
      ensures io in Where <==> io in Hands || (exists i :: 0 <= i < |Lists| && io in Lists[i]) || (exists b :: 0 <= b < |Batches| && io in Batches[b])
      ensures submitted == completed + Marked + Total(Lists) + Total(Batches) + |Hands|
      ensures submitted == completed ==> Done == Accepted
    {
      hide HashOk, Forward, Linked;
      assert |Accepted| == |Done| + |multiset(Where.Keys)|;
      forall i | 0 <= i < |Lists| ensures Holds(Where, Lists[i], i) { assert QueueOk(Where, i); }
      forall b | 0 <= b < |Batches| ensures Holds(Where, Batches[b], DrainAt(b)) { assert RunOk(Where, b); }
      if io in Where {
        var p := Where[io];
        if p < BINS { assert io in Lists[p]; } else if p > IN_HAND { assert io in Batches[p - BINS - 1]; }
      }
    }

    /** Any number of drains, of any bins, and submissions, their steps in any order; a step that cannot be made now is skipped. What was
        accepted is what has been completed since, and what is in the system now and was not before. */
    method Interleave(moves: seq<Move>, ghost all: set<AsynchIo>) returns (ghost took: seq<AsynchIo>)
      requires Valid() && Hands == {} && Marked == 0 && Where.Keys <= all && forall m :: m in moves && (m.Submit? || m.End?) ==> m.io in all
      modifies this, all`next, all`prior, all`signature
      ensures Valid() && Where.Keys <= all && Accepted == old(Accepted) + multiset(took)
      ensures forall io :: io in all ==>
        Done[io] + (if io in Where then 1 else 0) == old(Done)[io] + (if io in old(Where) then 1 else 0) + multiset(took)[io]
      ensures submitted == completed ==> Done == Accepted
    {
      hide BinOf, AioQueue.Valid, ListsOk, RunsOk, HashOk, Accounted, HintAt, StopsAt, Inserted;
      forall io | io in all ensures Accepted[io] == Done[io] + (if io in Where then 1 else 0) { ExactlyOnce(io); }
      took := [];
      var hands: set<AsynchIo>, marked, k := {}, 0, 0;
      while k < |moves|
        invariant Valid() && k <= |moves| && hands == Hands && marked == Marked && Where.Keys <= all
        invariant Accepted == old(Accepted) + multiset(took)
      {
        assert moves[k] in moves;
        match moves[k] {
          case Submit(io) =>
            ghost var k0: nat, place: nat;
            var accepted: bool;
            accepted, k0, place := InsertIo(io);
            if accepted { took := took + [io]; }
          case Begin(bin) =>
            if bin < BINS { var b := TakeList(bin); }
          case Next(b) =>
            if b < |runs| && runs[b] != null {
              var io := TakeNext(b);
              hands := hands + {io};
            }
          case End(io) =>
            if io in hands {
              Finish(io);
              hands, marked := hands - {io}, marked + 1;
            }
          case Tally =>
            if marked > 0 {
              Count();
              marked := marked - 1;
            }
        }
        k := k + 1;
      }
      forall io | io in all ensures Accepted[io] == Done[io] + (if io in Where then 1 else 0) { ExactlyOnce(io); }
      if submitted == completed { AllDone(); }
    }

    lemma AllDone()
      requires Valid() && submitted == completed
      ensures Done == Accepted
    {
      hide HashOk, ListsOk, RunsOk;
    }

    lemma BinFacts(i: nat)
      requires Valid() && i < BINS
      ensures |Lists| == |heads| == BINS && |runs| == |Batches| && (heads[i] == null <==> Lists[i] == [])
    {
      assert QueueOk(Where, i);
    }

    lemma RunFacts(b: nat)
      requires Valid() && b < |runs|
      ensures |runs| == |Batches| && (runs[b] == null <==> Batches[b] == [])
    {
      assert RunOk(Where, b);
    }
  }

  /** Those of s that belong to bin i. */
  function AtBin(s: seq<AsynchIo>, i: nat): (r: seq<AsynchIo>)
    reads s`disk
  {
    if s == [] then [] else AtBin(s[..|s| - 1], i) + if BinOf(s[|s| - 1].disk) == i then [s[|s| - 1]] else []
  }

  lemma AtNoBin(i: nat)
    ensures AtBin([], i) == []
  {
  }

  lemma AtBinPlus(s: seq<AsynchIo>, io: AsynchIo, i: nat)
    ensures AtBin(s + [io], i) == AtBin(s, i) + if BinOf(io.disk) == i then [io] else []
  {
    hide BinOf;
    assert (s + [io])[..|s|] == s;
  }

  lemma {:induction false} AtBinJoin(s: seq<AsynchIo>, t: seq<AsynchIo>, i: nat)
    ensures AtBin(s + t, i) == AtBin(s, i) + AtBin(t, i)
    decreases t
  {
    hide BinOf;
    if t == [] {
      assert s + t == s;
    } else {
      var n := |t| - 1;
      AtBinJoin(s, t[..n], i);
      assert (s + t)[..|s + t| - 1] == s + t[..n];
    }
  }

  lemma AtBinSum(s: seq<AsynchIo>, t: seq<AsynchIo>, i: nat)
    ensures multiset(s + t) == multiset(s) + multiset(t)
    ensures multiset(AtBin(s + t, i)) == multiset(AtBin(s, i)) + multiset(AtBin(t, i))
  {
    hide AtBin;
    AtBinJoin(s, t, i);
  }

  lemma {:induction false} AtBinFits(s: seq<AsynchIo>, i: nat)
    ensures |AtBin(s, i)| <= |s|
  {
    if s != [] { AtBinFits(s[..|s| - 1], i); }
  }

  lemma AtPlace(w: map<AsynchIo, nat>, s: seq<AsynchIo>, place: nat)
    requires Holds(w, s, place)
    ensures forall n :: n in s <==> n in w && w[n] == place
    ensures forall k :: 0 <= k < |s| ==> s[k] in w && w[s[k]] == place
  {
  }

  lemma PutHolds(w: map<AsynchIo, nat>, io: AsynchIo, i: nat)
    requires io !in w
    ensures forall t: seq<AsynchIo>, a :: a != i && Holds(w, t, a) ==> Holds(w[io := i], t, a)
  {
  }

  lemma TakenHolds(w: map<AsynchIo, nat>, s: seq<AsynchIo>, place: nat, to: nat)
    requires Holds(w, s, place) && NoDup(s) && s != [] && to != place
    ensures Holds(w[s[0] := to], s[1..], place)
    ensures forall t: seq<AsynchIo>, a :: a != place && a != to && Holds(w, t, a) ==> Holds(w[s[0] := to], t, a)
  {
    assert forall n :: n in s[1..] <==> n in s && n != s[0];
  }

  lemma LessHolds(w: map<AsynchIo, nat>, io: AsynchIo)
    requires io in w
    ensures forall t: seq<AsynchIo>, a :: a != w[io] && Holds(w, t, a) ==> Holds(w - {io}, t, a)
  {
  }

  lemma MovedPlaces(w: map<AsynchIo, nat>, i: nat, place: nat)
    ensures forall n :: n in w ==> n in Moved(w, i, place) && Moved(w, i, place)[n] == if w[n] == i then place else w[n]
    ensures forall n :: n in Moved(w, i, place) ==> n in w
  {
  }

  /** Every accepted request is still in the system or done, each once, and the counters say so. */
  ghost predicate Accounts(submitted: nat, completed: nat, inside: nat, a: multiset<AsynchIo>, d: multiset<AsynchIo>, w: set<AsynchIo>) {
    submitted == completed + inside && submitted == |a| && completed == |d| && a == d + multiset(w)
  }

  lemma OneMore(submitted: nat, completed: nat, inside: nat, a: multiset<AsynchIo>, d: multiset<AsynchIo>, w: set<AsynchIo>, io: AsynchIo)
    requires Accounts(submitted, completed, inside, a, d, w) && io !in w
    ensures Accounts(submitted + 1, completed, inside + 1, a + multiset{io}, d, w + {io})
  {
  }

  lemma LessKeys(w: map<AsynchIo, nat>, io: AsynchIo)
    ensures (w - {io}).Keys == w.Keys - {io}
  {
  }

  lemma PutKeys(w: map<AsynchIo, nat>, io: AsynchIo, i: nat)
    ensures w[io := i].Keys == w.Keys + {io}
  {
  }

  lemma OneLess(submitted: nat, completed: nat, inside: nat, a: multiset<AsynchIo>, d: multiset<AsynchIo>, w: set<AsynchIo>, io: AsynchIo)
    requires Accounts(submitted, completed, inside, a, d, w) && io in w && inside > 0
    ensures Accounts(submitted, completed + 1, inside - 1, a, d + multiset{io}, w - {io})
  {
    assert w - {io} + {io} == w;
  }

  lemma InsertedHas(s: seq<AsynchIo>, k: nat, io: AsynchIo)
    requires k <= |s|
    ensures forall n :: n in Inserted(s, k, io) <==> n in s || n == io
  {
    assert s == s[..k] + s[k..];
  }

  lemma OrderedInserted(chain: seq<AsynchIo>, r: nat, j: nat, k: nat, io: AsynchIo)
    requires Ordered(chain, r, j) && k <= |chain| && RowOf(io.disk) == r && Slot(io.sectorOffset) == j
    requires chain != [] ==> chain[0].disk == io.disk
    requires (forall m :: 0 <= m < k ==> chain[m].sectorOffset < io.sectorOffset) && (k < |chain| ==> chain[k].sectorOffset >= io.sectorOffset)
    ensures Ordered(Inserted(chain, k, io), r, j)
  {
    hide RowOf, Slot;
    var s := Inserted(chain, k, io);
    assert forall a :: 0 <= a < |s| ==> s[a] == if a < k then chain[a] else if a == k then io else chain[a - 1];
  }

  lemma {:induction false} EmptyTotal(n: nat)
    ensures Total(seq(n, _ => [])) == 0
  {
    if n > 0 {
      EmptyTotal(n - 1);
      var lists: seq<seq<AsynchIo>> := seq(n, _ => []);
      assert lists[..n - 1] == seq(n - 1, _ => []);
    }
  }
}
