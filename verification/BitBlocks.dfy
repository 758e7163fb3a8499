/** The chunked bit list of bit.c, and the plain boolean sequence it stands for. */
module BitBlocks {
  import opened Words
  import opened ChunkMath

  // ---- bits of a byte, bytes of a chunk -------------------------------------

  /** 1 << k */
  function Mask(k: nat): bv8
    requires k < 8
  {
    if k == 0 then 1 else if k == 1 then 2 else if k == 2 then 4 else if k == 3 then 8
    else if k == 4 then 16 else if k == 5 then 32 else if k == 6 then 64 else 128
  }

  /** (b >> k) & 1 */
  predicate TestBit(b: bv8, k: nat)
    requires k < 8
  {
    b & Mask(k) != 0
  }

  function PutBit(b: bv8, k: nat, v: bool): bv8
    requires k < 8
  {
    if v then b | Mask(k) else b & !Mask(k)
  }

  lemma PutBitEffect(b: bv8, k: nat, v: bool, j: nat)
    requires k < 8 && j < 8
    ensures TestBit(PutBit(b, k, v), j) == if j == k then v else TestBit(b, j)
  {
  }

  /** Bit k of a byte is that of weight 2 to the k. */
  lemma BitOrder(b: bv8, k: nat)
    requires k < 8
    ensures TestBit(b, k) <==> (b >> k) & 1 == 1
  {
  }

  lemma UniformByte(v: bool, k: nat)
    requires k < 8
    ensures TestBit(if v then 0 else 0xFF, k) != v
  {
  }

  /** i >> 3 */
  function ByteOf(i: nat): (w: nat)
    ensures 8 * w <= i < 8 * w + 8
  {
    i / 8
  }

  /** i & 7 */
  function BitOf(i: nat): (k: nat)
    ensures k < 8 && i == 8 * ByteOf(i) + k
  {
    i % 8
  }

  /** i starts a 32-bit word. */
  predicate Aligned(i: nat): (r: bool)
    ensures r ==> i == 8 * ByteOf(i)
  {
    i % 32 == 0
  }

  ghost function ByteBits(b: bv8): (r: seq<bool>)
    ensures |r| == 8
  {
    seq(8, k requires 0 <= k < 8 => TestBit(b, k))
  }

  /** The bits of a byte buffer, low bit of the first byte first. */
  ghost function BufferBits(buf: seq<bv8>): (r: seq<bool>)
    ensures |r| == 8 * |buf|
  {
    if buf == [] then [] else ByteBits(buf[0]) + BufferBits(buf[1..])
  }

  lemma {:induction false} BufferBitsAt(buf: seq<bv8>, i: nat)
    requires i < 8 * |buf|
    ensures BufferBits(buf)[i] == TestBit(buf[ByteOf(i)], BitOf(i))
  {
    hide ByteOf, BitOf, TestBit;
    if i >= 8 { BufferBitsAt(buf[1..], i - 8); }
  }

  lemma BufferBitsPut(buf: seq<bv8>, i: nat, v: bool)
    requires i < 8 * |buf|
    ensures BufferBits(buf[ByteOf(i) := PutBit(buf[ByteOf(i)], BitOf(i), v)]) == BufferBits(buf)[i := v]
  {
    hide ByteOf, BitOf, TestBit, PutBit, BufferBits;
    var put := buf[ByteOf(i) := PutBit(buf[ByteOf(i)], BitOf(i), v)];
    forall j | 0 <= j < 8 * |buf| ensures BufferBits(put)[j] == BufferBits(buf)[i := v][j] {
      BufferBitsAt(buf, j);
      BufferBitsAt(put, j);
      PutBitEffect(buf[ByteOf(i)], BitOf(i), v, BitOf(j));
    }
  }

  lemma {:induction false} ZeroBuffer(n: nat)
    ensures BufferBits(seq(n, _ => 0)) == Clear(8 * n)
  {
    hide ByteOf, BitOf, BufferBits;
    var zeros: seq<bv8> := seq(n, _ => 0);
    forall j | 0 <= j < 8 * n ensures !BufferBits(zeros)[j] {
      BufferBitsAt(zeros, j);
    }
  }

  // ---- boolean sequences ----------------------------------------------------

  ghost function Clear(n: nat): (r: seq<bool>)
    ensures |r| == n && forall i :: 0 <= i < n ==> !r[i]
  {
    seq(n, _ => false)
  }

  /** `now` is `was` with positions [from, to) set to v. */
  ghost predicate RangeSet(was: seq<bool>, now: seq<bool>, from: nat, to: nat, v: bool) {
    |now| == |was| && forall i :: 0 <= i < |was| ==> now[i] == if from <= i < to then v else was[i]
  }

  /** bits[s..s+n) all hold v and do not cross a chunk of `chunk` bits. */
  ghost predicate RunAt(bits: seq<bool>, chunk: nat, s: nat, n: nat, v: bool): (r: bool)
    requires chunk > 0
    ensures r ==> s + n <= |bits| && (n > 0 ==> bits[s] == v)
  {
    s + n <= |bits| && Offset(s, chunk) + n <= chunk && forall i :: s <= i < s + n ==> bits[i] == v
  }

  ghost predicate NoRun(bits: seq<bool>, chunk: nat, from: nat, to: nat, n: nat, v: bool)
    requires chunk > 0
  {
    forall s: nat :: from <= s < to ==> !RunAt(bits, chunk, s, n, v)
  }

  /** pos is the least start of such a run at or after `from`; EOF when there is none. */
  ghost predicate IsFirstRun(bits: seq<bool>, chunk: nat, from: nat, n: nat, v: bool, pos: ulong)
    requires chunk > 0
  {
    if pos == EOF then
      NoRun(bits, chunk, from, |bits|, n, v)
    else
      from <= pos < |bits| && RunAt(bits, chunk, pos, n, v) && NoRun(bits, chunk, from, pos, n, v)
  }

  /** A run, by its bits and the chunk it lies in. */
  ghost predicate Run(bits: seq<bool>, chunk: nat, s: nat, n: nat, v: bool) {
    s + n <= |bits| && (exists k: nat :: Start(k, chunk) <= s && s + n <= Start(k + 1, chunk)) && forall x :: s <= x < s + n ==> bits[x] == v
  }

  lemma RunIs(bits: seq<bool>, chunk: nat, s: nat, n: nat, v: bool)
    requires chunk > 0 && n > 0
    ensures RunAt(bits, chunk, s, n, v) <==> Run(bits, chunk, s, n, v)
  {
    hide Start, Offset;
    var k := OffsetOf(s, chunk);
    StartNext(k, chunk);
    forall m: nat | Start(m, chunk) <= s && s + n <= Start(m + 1, chunk) ensures Offset(s, chunk) + n <= chunk {
      StartNext(m, chunk);
      OffsetInChunk(m, s - Start(m, chunk), chunk);
    }
  }

  lemma StartNext(k: nat, chunk: nat)
    ensures Start(k + 1, chunk) == Start(k, chunk) + chunk
  {
  }

  lemma {:induction false} OffsetOf(s: nat, chunk: nat) returns (k: nat)
    requires chunk > 0
    ensures s == Start(k, chunk) + Offset(s, chunk) && Offset(s, chunk) < chunk
    decreases s
  {
    k := 0;
    if s >= chunk {
      var m := OffsetOf(s - chunk, chunk);
      StartNext(m, chunk);
      k := m + 1;
    }
  }

  /** What a scan finds: the least start from `from` on of n bits equal to v in one chunk; -1 if there is none. */
  lemma FirstRunMeans(bits: seq<bool>, chunk: nat, from: nat, n: nat, v: bool, pos: ulong)
    requires chunk > 0 && n > 0 && IsFirstRun(bits, chunk, from, n, v, pos)
    ensures pos == 0xFFFF_FFFF ==> forall s: nat :: s >= from ==> !Run(bits, chunk, s, n, v)
    ensures pos != 0xFFFF_FFFF ==> from <= pos && Run(bits, chunk, pos, n, v) && forall s: nat :: from <= s < pos ==> !Run(bits, chunk, s, n, v)
  {
    hide Run;
    forall s: nat ensures RunAt(bits, chunk, s, n, v) <==> Run(bits, chunk, s, n, v) { RunIs(bits, chunk, s, n, v); }
  }

  // ---- chunk counts ---------------------------------------------------------

  /** Chunks of `size` bytes needed for `limit` bits. */
  function BlocksFor(limit: nat, size: nat): nat
    requires size > 0
  {
    ((limit + 7) / 8 + (size - 1)) / size
  }

  lemma BlocksForCovers(limit: nat, size: nat)
    requires size > 0
    ensures var n := BlocksFor(limit, size);
      if n == 0 then limit == 0 else Start(n - 1, size * 8) < limit <= Start(n, size * 8)
  {
    var bytes := (limit + 7) / 8;
    var q := (bytes + (size - 1)) / size;
    assert q * size + (bytes + (size - 1)) % size == bytes + (size - 1);
    assert q * (size * 8) == q * size * 8;
    StartIsProduct(q, size * 8);
    if q > 0 {
      assert (q - 1) * size == q * size - size < bytes;
      assert (q - 1) * (size * 8) == (q - 1) * size * 8;
      StartIsProduct(q - 1, size * 8);
    }
  }

  /** The chunk count is determined by the limit, and grows with it. */
  // ---- chunks ---------------------------------------------------------------

  /** One chunk: BlockIndex is its place in the list, BlockBuffer its bytes. */
  datatype BitBlock = BitBlock(BlockIndex: nat, BlockBuffer: seq<bv8>)

  ghost predicate Ordered(blocks: seq<BitBlock>, size: nat) {
    forall k :: 0 <= k < |blocks| ==> blocks[k].BlockIndex == k && |blocks[k].BlockBuffer| == size
  }

  /** All the chunks' bits, one after the other. */
  ghost function Flat(blocks: seq<BitBlock>): seq<bool> {
    if blocks == [] then [] else Flat(blocks[..|blocks| - 1]) + BufferBits(blocks[|blocks| - 1].BlockBuffer)
  }

  lemma {:induction false} FlatLength(blocks: seq<BitBlock>, size: nat)
    requires Ordered(blocks, size)
    ensures |Flat(blocks)| == Start(|blocks|, size * 8)
  {
    if blocks != [] { FlatLength(blocks[..|blocks| - 1], size); }
  }

  lemma {:induction false} FlatAt(blocks: seq<BitBlock>, size: nat, k: nat, i: nat)
    requires Ordered(blocks, size) && k < |blocks| && i < size * 8
    ensures Start(k, size * 8) + i < |Flat(blocks)| == Start(|blocks|, size * 8)
    ensures Flat(blocks)[Start(k, size * 8) + i] == BufferBits(blocks[k].BlockBuffer)[i]
    decreases |blocks|
  {
    var front := blocks[..|blocks| - 1];
    FlatLength(front, size);
    if k < |front| { FlatAt(front, size, k, i); }
  }

  /** Writing one bit of one chunk changes one bit of the whole. */
  lemma {:induction false} FlatPut(blocks: seq<BitBlock>, size: nat, k: nat, i: nat, v: bool)
    requires Ordered(blocks, size) && k < |blocks| && i < size * 8
    ensures Start(k, size * 8) + i < |Flat(blocks)|
    ensures Flat(PutInChunk(blocks, k, i, v)) == Flat(blocks)[Start(k, size * 8) + i := v]
    decreases |blocks|
  {
    hide Flat, BufferBits, Start, ByteOf, BitOf, TestBit;
    var last := |blocks| - 1;
    var front, tail := blocks[..last], BufferBits(blocks[last].BlockBuffer);
    var put := PutInChunk(blocks, k, i, v);
    FlatLength(front, size);
    FlatAt(blocks, size, k, i);
    FlatSplit(blocks);
    FlatSplit(put);
    if k < last {
      FlatAt(front, size, k, i);
      FlatPut(front, size, k, i, v);
      assert put[..last] == PutInChunk(front, k, i, v);
      assert put[last] == blocks[last];
      UpdateFirst(Flat(front), tail, Start(k, size * 8) + i, v);
    } else {
      assert put[..last] == front;
      BufferBitsPut(blocks[k].BlockBuffer, i, v);
      UpdateSecond(Flat(front), tail, i, v);
    }
  }

  /** The chunks in front hold the bits in front. */
  lemma {:induction false} FlatPrefix(blocks: seq<BitBlock>, size: nat, n: nat)
    requires Ordered(blocks, size) && n <= |blocks|
    ensures Ordered(blocks[..n], size) && |Flat(blocks)| == Start(|blocks|, size * 8) >= Start(n, size * 8)
    ensures Flat(blocks[..n]) == Flat(blocks)[..Start(n, size * 8)]
    decreases |blocks|
  {
    FlatLength(blocks, size);
    if n < |blocks| {
      FlatSplit(blocks);
      FlatPrefix(blocks[..|blocks| - 1], size, n);
      assert blocks[..|blocks| - 1][..n] == blocks[..n];
    } else {
      assert blocks[..n] == blocks;
    }
  }

  lemma FlatSplit(blocks: seq<BitBlock>)
    requires blocks != []
    ensures Flat(blocks) == Flat(blocks[..|blocks| - 1]) + BufferBits(blocks[|blocks| - 1].BlockBuffer)
  {
  }

  /** *(ULONG *)&buf[w] with all four bytes b. */
  predicate WordIs(buf: seq<bv8>, w: nat, b: bv8)
    requires w + 4 <= |buf|
  {
    buf[w] == b && buf[w + 1] == b && buf[w + 2] == b && buf[w + 3] == b
  }

  /** blocks[k].BlockBuffer[i >> 3] with bit (i & 7) written. */
  function PutInChunk(blocks: seq<BitBlock>, k: nat, i: nat, v: bool): seq<BitBlock>
    requires k < |blocks| && i < |blocks[k].BlockBuffer| * 8
  {
    var buf := blocks[k].BlockBuffer;
    blocks[k := blocks[k].(BlockBuffer := buf[ByteOf(i) := PutBit(buf[ByteOf(i)], BitOf(i), v)])]
  }

  // ---- the list -------------------------------------------------------------

  /** BIT_BLOCK_HEAD with its chunks in list order, Head first. */
  class BitBlockList {
    var blocks: seq<BitBlock>
    var Count: nat
    var Limit: ulong
    const BlockSize: nat
    const Entries: nat  // bits in one chunk

    var HeadFreed: bool  // shrunk to nothing: Head is left on a freed chunk

    ghost var Bits: seq<bool>
    ghost var Stale: seq<bool>  // what the last chunk holds past Limit

    /** The chunks are in order and just enough for Limit bits. */
    ghost predicate Valid()
      reads this
      ensures Valid() ==> Entries > 0 && |Bits| == Limit
      ensures Valid() ==> forall k :: 0 <= k < |blocks| ==> blocks[k].BlockIndex == k && |blocks[k].BlockBuffer| * 8 == Entries
    {
      && Shape()
      && Limit + Entries <= TWO_TO_THE_32
      && (if Count == 0 then Limit == 0 else Start(Count - 1, Entries) < Limit <= Start(Count, Entries))
      && |Bits| == Limit && |Stale| == Start(Count, Entries) - Limit && !HeadFreed
      && Flat(blocks) == Bits + Stale
    }

    ghost predicate Shape()
      reads this
    {
      BlockSize > 0 && Entries == BlockSize * 8 && Count == |blocks| && Ordered(blocks, BlockSize)
    }

    constructor (size: nat)
      requires 0 < size && size * 8 <= TWO_TO_THE_32
      ensures Valid() && Limit == 0 && BlockSize == size && Bits == Stale == []
    {
      BlockSize, Entries := size, size * 8;
      blocks, Count, Limit, Bits, Stale, HeadFreed := [], 0, 0, [], [], false;
    }

    /** CreateBitBlockList: every bit clear; -1 for a zero block size. */
    static method CreateBitBlockList(limit: ulong, size: nat) returns (code: ulong, bb: BitBlockList?)
      requires limit + size * 8 <= TWO_TO_THE_32  // chunk arithmetic on ULONG does not wrap
      ensures code == 0 <==> size > 0
      ensures code == 0 ==> bb != null && bb.Valid() && fresh(bb) && bb.BlockSize == size
      ensures code == 0 ==> bb.Bits == Clear(limit)
    {
      if size == 0 {
        return EOF, null;
      }
      bb := new BitBlockList(size);
      code := bb.AdjustBitBlockList(limit);
    }

    /** InsertBitBlockByValue: before the first chunk whose index is not smaller. */
    method InsertBitBlockByValue(blk: BitBlock) returns (p: nat)
      modifies this`blocks
      ensures p <= |old(blocks)| && blocks == old(blocks)[..p] + [blk] + old(blocks)[p..]
      ensures forall k :: 0 <= k < p ==> old(blocks)[k].BlockIndex < blk.BlockIndex
      ensures p < |old(blocks)| ==> old(blocks)[p].BlockIndex >= blk.BlockIndex
    {
      p := 0;
      while p < |blocks| && blocks[p].BlockIndex < blk.BlockIndex
        invariant 0 <= p <= |blocks|
        invariant forall k :: 0 <= k < p ==> blocks[k].BlockIndex < blk.BlockIndex
      {
        p := p + 1;
      }
      blocks := blocks[..p] + [blk] + blocks[p..];
    }

    /** One more clear chunk, which the ordered insertion puts last. */
    method AppendBlock()
      requires Shape()
      modifies this`blocks, this`Count
      ensures Shape() && Count == old(Count) + 1 && Flat(blocks) == old(Flat(blocks)) + Clear(Entries)
    {
      ghost var was := blocks;
      var blk := BitBlock(Count, seq(BlockSize, _ => 0));
      var p := InsertBitBlockByValue(blk);
      assert blocks == was + [blk];
      assert blocks[..|was|] == was;
      ZeroBuffer(BlockSize);
      Count := Count + 1;
    }

    method AppendBlocks(total: nat)
      requires Shape() && Count <= total
      modifies this`blocks, this`Count
      ensures Shape() && Count == total && Start(old(Count), Entries) <= Start(Count, Entries)
      ensures Flat(blocks) == old(Flat(blocks)) + Clear(Start(Count, Entries) - Start(old(Count), Entries))
    {
      while Count < total
        invariant Shape() && Count <= total && Start(old(Count), Entries) <= Start(Count, Entries)
        invariant Flat(blocks) == old(Flat(blocks)) + Clear(Start(Count, Entries) - Start(old(Count), Entries))
      {
        AppendBlock();
      }
    }

    /** The bits up to a new limit: old ones as far as the chunks that stay reach, then clear ones. */
    ghost function Readjusted(newLimit: nat): (r: seq<bool>)
      reads this
      ensures |r| == newLimit
    {
      var all := Bits + Stale;
      if newLimit <= |all| then all[..newLimit] else all + Clear(newLimit - |all|)
    }

    /** AdjustBitBlockList: chunks are added behind the last one, or freed from the end. Head is never moved, so a list shrunk to
        nothing is lost. */
    method AdjustBitBlockList(newLimit: ulong) returns (code: ulong)
      requires Valid() && newLimit + Entries <= TWO_TO_THE_32
      modifies this
      ensures code == 0 && Limit == newLimit && Count == BlocksFor(newLimit, BlockSize)
      ensures HeadFreed == (newLimit == 0 && old(Count) > 0) && (!HeadFreed ==> Valid())
      ensures Bits == old(Readjusted(newLimit)) && forall i :: 0 <= i < |old(Bits)| && i < newLimit ==> Bits[i] == old(Bits)[i]
      ensures |Bits + Stale| > |old(Bits + Stale)| ==> forall i :: 0 <= i < |Stale| ==> !Stale[i]
    {
      hide Flat, Start, Ordered;
      var total := BlocksFor(newLimit, BlockSize);
      BlocksForCovers(newLimit, BlockSize);
      ghost var all, now := Bits + Stale, Readjusted(newLimit);
      if total > Count {
        StartMonotoneWeak(Count, total - 1, Entries);
        AppendBlocks(total);
        Bits, Stale := now, Clear(Start(Count, Entries) - newLimit);
        assert Flat(blocks) == Bits + Stale;
      } else {
        if total < Count {
          HeadFreed := total == 0;
          FlatPrefix(blocks, BlockSize, total);
          StartMonotoneWeak(total, Count, Entries);
          blocks, Count := blocks[..total], total;
        }
        Bits, Stale := now, all[newLimit..Start(Count, Entries)];
      }
      Limit := newLimit;
      return 0;
    }

    /** Growing, a list that has never been shrunk keeps its bits and gets clear ones. One that has been shrunk inside a chunk shows
        the old bits again. */
    lemma GrowsClear(newLimit: nat)
      requires |Bits| <= newLimit
      ensures Readjusted(newLimit) == Bits + Clear(newLimit - |Bits|) <==> forall i :: 0 <= i < |Stale| && |Bits| + i < newLimit ==> !Stale[i]
    {
      var all, clear := Bits + Stale, Bits + Clear(newLimit - |Bits|);
      assert forall i :: 0 <= i < |Stale| ==> all[|Bits| + i] == Stale[i];
      if Readjusted(newLimit) == clear {
        forall i | 0 <= i < |Stale| && |Bits| + i < newLimit ensures !Stale[i] { assert Readjusted(newLimit)[|Bits| + i] == clear[|Bits| + i]; }
      }
    }

    /** Index / EntriesPerBlock and Index % EntriesPerBlock. */
    method Place(index: ulong) returns (block: nat, offset: nat)
      requires Valid()
      ensures index == Start(block, Entries) + offset && offset < Entries
      ensures index < Limit ==> block < |blocks|
    {
      Locate(index, Limit, Count, Entries);
      return index / Entries, index % Entries;
    }

    /** BlockIndex * EntriesPerBlock */
    method Base(k: nat) returns (base: nat)
      requires Valid() && k < |blocks|
      ensures base == Start(k, Entries)
    {
      StartIsProduct(k, Entries);
      return blocks[k].BlockIndex * Entries;
    }

    /** The search every routine starts with: the chunk whose BlockIndex is `block`, or none. */
    method FindBlock(block: nat) returns (k: nat)
      requires Valid()
      ensures k == if block < |blocks| then block else |blocks|
    {
      k := 0;
      while k < |blocks|
        invariant k <= |blocks| && k <= block
      {
        if blocks[k].BlockIndex == block { return; }
        k := k + 1;
      }
    }

    /** One bit of one chunk, as the list's bit sequence has it. */
    method GetAt(k: nat, i: nat) returns (v: bool)
      requires Valid() && k < |blocks| && i < Entries
      ensures Start(k, Entries) + i < Limit ==> v == Bits[Start(k, Entries) + i]
    {
      hide Flat, BufferBits, Start, ByteOf, BitOf, TestBit;
      FlatAt(blocks, BlockSize, k, i);
      BufferBitsAt(blocks[k].BlockBuffer, i);
      return TestBit(blocks[k].BlockBuffer[ByteOf(i)], BitOf(i));
    }

    method PutAt(k: nat, i: nat, v: bool)
      requires Valid() && k < |blocks| && i < Entries && Start(k, Entries) + i < Limit
      modifies this`blocks, this`Bits
      ensures Valid() && Limit == old(Limit) && |blocks| == |old(blocks)|
      ensures Bits == old(Bits)[Start(k, Entries) + i := v]
    {
      hide Flat, Start, PutBit, ByteOf, BitOf;
      FlatPut(blocks, BlockSize, k, i, v);
      blocks := PutInChunk(blocks, k, i, v);
      Bits := Bits[Start(k, Entries) + i := v];
    }

    method GetBitBlockValue(index: ulong) returns (value: ulong)
      requires Valid()
      ensures value == if index >= Limit then EOF else if Bits[index] then 1 else 0
    {
      hide Start, Flat, Odd;
      if index > Pred(Limit) { return EOF; }
      var block, offset := Place(index);
      var k := FindBlock(block);
      if k < |blocks| {
        var v := GetAt(k, offset);
        return if v then 1 else 0;
      }
      return EOF;
    }

    method SetBitBlockValue(index: ulong, value: ulong) returns (code: ulong)
      requires Valid()
      modifies this`blocks, this`Bits
      ensures Valid() && Limit == old(Limit)
      ensures code == if index < Limit then 0 else EOF
      ensures Bits == if index < Limit then old(Bits)[index := Odd(value)] else old(Bits)
      ensures index < Limit ==> (Bits[index] <==> value % 2 == 1)
    {
      hide Start, Flat;
      if index > Pred(Limit) { return EOF; }
      var block, offset := Place(index);
      var k := FindBlock(block);
      if k < |blocks| {
        PutAt(k, offset, Odd(value));
        return 0;
      }
      return EOF;
    }

    /** The inner loop of the range setter: up to `count` bits of chunk k from i, short of the limit. */
    method SetInChunk(k: nat, from: nat, v: bool, count: nat) returns (i: nat)
      requires Valid() && k < |blocks| && from < Entries && count > 0
      modifies this`blocks, this`Bits
      ensures Valid() && Limit == old(Limit) && |blocks| == |old(blocks)|
      ensures from <= i <= from + count && i <= Entries
      ensures i < from + count ==> i == Entries || Start(k, Entries) + i >= Limit
      ensures i == from || Start(k, Entries) + i <= Limit
      ensures RangeSet(old(Bits), Bits, Start(k, Entries) + from, Start(k, Entries) + i, v)
    {
      var base := Base(k);
      i := from;
      while i < Entries && base + i < Limit && i < from + count
        invariant Valid() && Limit == old(Limit) && |blocks| == |old(blocks)| && from <= i <= from + count && i <= Entries
        invariant i == from || base + i <= Limit
        invariant RangeSet(old(Bits), Bits, base + from, base + i, v)
      {
        PutAt(k, i, v);
        i := i + 1;
      }
    }

    /** Only the last chunk can be cut short by the limit. */
    lemma NextChunk(k: nat)
      requires Valid() && k < |blocks|
      ensures if k + 1 < |blocks| then Start(k + 1, Entries) == Start(k, Entries) + Entries < Limit else Start(k, Entries) < Limit <= Start(k, Entries) + Entries
    {
      if k + 1 < |blocks| { StartMonotoneWeak(k + 1, |blocks| - 1, Entries); }
    }

    /** SetBitBlockValueWithRange: a range that is zero, or negative as an int, sets nothing. */
    method SetBitBlockValueWithRange(index: ulong, value: ulong, range: ulong) returns (code: ulong)
      requires Valid()
      modifies this`blocks, this`Bits
      ensures Valid() && Limit == old(Limit)
      ensures var n := if range < 0x8000_0000 then range else 0;
        && (code == 0 <==> 0 < n && index < Limit && index + n <= Limit)
        && RangeSet(old(Bits), Bits, index, index + n, Odd(value))
    {
      hide Valid, Start, Odd;
      var count := if range < 0x8000_0000 then range else range - TWO_TO_THE_32;
      if index > Pred(Limit) || count <= 0 { return EOF; }
      var block, offset := Place(index);
      var v := Odd(value);
      var k := FindBlock(block);
      ghost var p := index;
      while k < |blocks|
        invariant Valid() && Limit == old(Limit) && k <= |blocks|
        invariant 0 < count == range - (p - index) && index <= p
        invariant k < |blocks| ==> block <= k && p == Start(k, Entries) + (if k == block then offset else 0)
        invariant k == |blocks| ==> p >= Limit
        invariant RangeSet(old(Bits), Bits, index, p, v)
      {
        var from := if blocks[k].BlockIndex == block then offset else 0;
        var i := SetInChunk(k, from, v, count);
        p := p + (i - from);
        count := count - (i - from);
        if count == 0 { return 0; }
        NextChunk(k);
        k := k + 1;
      }
      return EOF;
    }

    /** Inside one chunk the run's place is measured from the chunk's start. */
    lemma RunInChunk(k: nat, i: nat, n: nat, v: bool)
      requires Valid() && k < |blocks| && i < Entries
      ensures var s := Start(k, Entries) + i; RunAt(Bits, Entries, s, n, v) <==>
        i + n <= Entries && s + n <= Limit && forall x :: s <= x < s + n ==> Bits[x] == v
    {
      OffsetInChunk(k, i, Entries);
    }

    /** A wrong bit, or the end, at j rules out every start in [i, j] short of it. */
    lemma NoRunPast(k: nat, i: nat, j: nat, n: nat, v: bool)
      requires Valid() && k < |blocks| && i <= j <= Entries && j < i + n
      requires j == Entries || Start(k, Entries) + j >= Limit || Bits[Start(k, Entries) + j] != v
      ensures var b := Start(k, Entries); NoRun(Bits, Entries, b + i, b + (if j < Entries then j + 1 else j), n, v)
    {
      var b := Start(k, Entries);
      forall s: nat | b + i <= s < b + (if j < Entries then j + 1 else j) ensures !RunAt(Bits, Entries, s, n, v) {
        RunInChunk(k, s - b, n, v);
      }
    }

    /** Four bytes 0 have no bit set, four bytes -1 no bit clear. */
    lemma WordBit(k: nat, w: nat, v: bool, j: nat)
      requires Valid() && k < |blocks| && w + 4 <= |blocks[k].BlockBuffer|
      requires WordIs(blocks[k].BlockBuffer, w, if v then 0 else 0xFF)
      requires w * 8 <= j < w * 8 + 32 && Start(k, Entries) + j < Limit
      ensures Bits[Start(k, Entries) + j] != v
    {
      hide Flat, BufferBits, Start, ByteOf, BitOf, TestBit;
      var buf := blocks[k].BlockBuffer;
      FlatAt(blocks, BlockSize, k, j);
      BufferBitsAt(buf, j);
      UniformByte(v, BitOf(j));
      assert ByteOf(j) == w || ByteOf(j) == w + 1 || ByteOf(j) == w + 2 || ByteOf(j) == w + 3;
    }

    lemma NoRunInWord(k: nat, i: nat, n: nat, v: bool)
      requires Valid() && k < |blocks| && Aligned(i) && ByteOf(i) + 4 <= |blocks[k].BlockBuffer| && n > 0
      requires WordIs(blocks[k].BlockBuffer, ByteOf(i), if v then 0 else 0xFF)
      ensures NoRun(Bits, Entries, Start(k, Entries) + i, Start(k, Entries) + i + 32, n, v)
    {
      hide Valid, Flat, BufferBits, Start, RunAt, WordIs, Aligned, ByteOf;
      var base := Start(k, Entries);
      forall s: nat | base + i <= s < base + i + 32 ensures !RunAt(Bits, Entries, s, n, v) {
        if s < Limit { WordBit(k, ByteOf(i), v, s - base); }
      }
    }

    /** The counting loop: how far bits equal to v run on from i, up to `range`. */
    method ScanRun(k: nat, i: nat, v: bool, range: ulong) returns (j: nat, c: nat)
      requires Valid() && k < |blocks| && i < Entries && Start(k, Entries) + i < Limit
      ensures j == i + c && c <= range && j <= Entries && Start(k, Entries) + j <= Limit
      ensures forall x :: Start(k, Entries) + i <= x < Start(k, Entries) + j ==> Bits[x] == v
      ensures c < range ==> j == Entries || Start(k, Entries) + j == Limit || Bits[Start(k, Entries) + j] != v
    {
      var base := Base(k);
      j, c := i, 0;
      while c < range && j < Entries && base + j < Limit
        invariant j == i + c && c <= range && j <= Entries && base + j <= Limit
        invariant forall x :: base + i <= x < base + j ==> Bits[x] == v
      {
        var bit := GetAt(k, j);
        if bit != v { break; }
        j, c := j + 1, c + 1;
      }
    }

    /** The scan of one chunk, from bit `from`, skipping words that hold no wanted bit. */
    method ScanChunk(k: nat, from: nat, v: bool, range: ulong, ghost n: nat) returns (i: nat, found: bool)
      requires Valid() && k < |blocks| && from < Entries && n == if range == 0 then 1 else range
      ensures found ==> from <= i < Entries && RunAt(Bits, Entries, Start(k, Entries) + i, n, v)
      ensures var b := Start(k, Entries); NoRun(Bits, Entries, b + from, b + (if found then i else Entries), n, v)
    {
      hide Valid, Start, RunAt, Aligned, ByteOf, WordIs;
      var base := Base(k);
      i := from;
      while i < Entries && base + i < Limit
        invariant from <= i <= Entries && base == Start(k, Entries)
        invariant NoRun(Bits, Entries, base + from, base + i, n, v)
      {
        if Aligned(i) && i + 32 < Entries {
          if WordIs(blocks[k].BlockBuffer, ByteOf(i), if v then 0 else 0xFF) {
            NoRunInWord(k, i, n, v);
            i := i + 32;
            continue;
          }
        }
        var bit := GetAt(k, i);
        if bit == v {
          var j, c := ScanRun(k, i, v, range);
          if c == range {
            RunInChunk(k, i, n, v);
            return i, true;
          }
          NoRunPast(k, i, j, n, v);
          if j == Entries { return j, false; }
          i := j;
        } else {
          NoRunPast(k, i, i, n, v);
        }
        i := i + 1;
      }
      found := false;
    }

    /** ScanBitBlockValueWithIndex: the first run of `range` bits equal to `value` at or after `index`. */
    method ScanBitBlockValueWithIndex(value: ulong, index: ulong, range: ulong) returns (pos: ulong)
      requires Valid()
      ensures IsFirstRun(Bits, Entries, index, if range == 0 then 1 else range, Odd(value), pos)
    {
      hide Valid, Start, RunAt, Odd;
      if index > Pred(Limit) { return EOF; }
      var block, offset := Place(index);
      var v := Odd(value);
      ghost var n := if range == 0 then 1 else range;
      var k := FindBlock(block);
      ghost var q := index;
      while k < |blocks|
        invariant k <= |blocks| && index <= q && NoRun(Bits, Entries, index, q, n, v)
        invariant if k < |blocks| then block <= k && q == Start(k, Entries) + (if k == block then offset else 0) else q >= Limit
      {
        var from := if blocks[k].BlockIndex == block then offset else 0;
        var i, found := ScanChunk(k, from, v, range, n);
        if found {
          var base := Base(k);
          if block < k { StartMonotone(block, k, Entries); }
          return base + i;
        }
        q := q + (Entries - from);
        NextChunk(k);
        k := k + 1;
      }
      return EOF;
    }

    /** ScanAndSetBitBlockValueWithIndex: the same search, and the run found is flipped. */
    method ScanAndSetBitBlockValueWithIndex(value: ulong, index: ulong, range: ulong) returns (pos: ulong)
      requires Valid()
      modifies this`blocks, this`Bits
      ensures Valid() && Limit == old(Limit)
      ensures IsFirstRun(old(Bits), Entries, index, if range == 0 then 1 else range, Odd(value), pos)
      ensures RangeSet(old(Bits), Bits, if pos == EOF then 0 else pos, if pos == EOF then 0 else pos + range, !Odd(value))
    {
      hide Valid, Start, RunAt, Odd;
      pos := ScanBitBlockValueWithIndex(value, index, range);
      if pos == EOF || range == 0 { return; }
      var k, j := Place(pos);
      RunInChunk(k, j, range, Odd(value));
      var i := SetInChunk(k, j, !Odd(value), range);
    }
  }
}
