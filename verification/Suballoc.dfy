/** The suballocation records cluster.c works with, as far as its callers can see (suballoc.c). */
module Suballoc {
  import opened Words
  import opened FatTables

  const SUBALLOC_BLOCK_SIZE: nat := 512

  /** (SAEntry & 0x7FFFFFFF) >> 24 */
  function Bin(rec: ulong): nat {
    rec % 0x8000_0000 / 0x100_0000
  }

  /** SAEntry & 0x00FFFFFF */
  function Number(rec: ulong): nat {
    rec % 0x100_0000
  }

  function Record(bin: nat, number: nat): (rec: ulong)
    requires bin <= 0x7F && number < 0xFF_FFFF
    ensures Bin(rec) == bin && Number(rec) == number && IsSuballoc(rec)
  {
    MARKER + bin * 0x100_0000 + number
  }

  /** The most records a bin can have, and one more. */
  const BIN_LIMIT: nat := 0xFF_FFFF

  lemma RecordOf(rec: ulong)
    requires IsSuballoc(rec)
    ensures Bin(rec) <= 0x7F && Number(rec) < 0x100_0000 && rec == MARKER + Bin(rec) * 0x100_0000 + Number(rec)
  {
  }

  /** The least number of blocks that hold so many bytes. */
  function BinFor(size: nat): (bin: nat)
    ensures size <= bin * SUBALLOC_BLOCK_SIZE < size + SUBALLOC_BLOCK_SIZE
  {
    (size + SUBALLOC_BLOCK_SIZE - 1) / SUBALLOC_BLOCK_SIZE
  }

  /** The first record of a bin from `from` on that is not in use; `limit` if there is none before that. */
  ghost function NextFree(used: set<ulong>, bin: nat, from: nat, limit: nat): (n: nat)
    requires bin <= 0x7F && from <= limit < BIN_LIMIT
    ensures from <= n <= limit && (n < limit ==> Record(bin, n) !in used) && forall k :: from <= k < n ==> Record(bin, k) in used
    decreases limit - from
  {
    if from == limit || Record(bin, from) !in used then from else NextFree(used, bin, from + 1, limit)
  }

  lemma {:induction false} NextFreeStays(used: set<ulong>, bin: nat, from: nat, limit: nat, longer: nat)
    requires bin <= 0x7F && from <= limit < longer < BIN_LIMIT && Record(bin, limit) !in used
    ensures NextFree(used, bin, from, longer) == NextFree(used, bin, from, limit)
    decreases limit - from
  {
    hide Record;
    if from < limit && Record(bin, from) in used { NextFreeStays(used, bin, from + 1, limit, longer); }
  }

  /** A free record before the search index is record 0. */
  ghost predicate Hinted(used: set<ulong>, b: nat, s: nat)
    requires b <= 0x7F && s < BIN_LIMIT
  {
    forall n :: 0 < n < s ==> Record(b, n) in used
  }

  lemma TakeKeepsHints(used: set<ulong>, bin: nat, n: nat, b: nat, s: nat)
    requires b <= 0x7F && s < BIN_LIMIT && Hinted(used, b, s) && bin <= 0x7F && n < BIN_LIMIT
    requires b == bin ==> forall k :: s <= k < n ==> Record(b, k) in used
    ensures Hinted(used + {Record(bin, n)}, b, if b == bin then n else s)
  {
    hide Record;
  }

  lemma FreeKeepsHints(used: set<ulong>, rec: ulong, b: nat, s: nat)
    requires b <= 0x7F && s < BIN_LIMIT && Hinted(used, b, s)
    ensures Hinted(used - {rec}, b, if b == Bin(rec) && 0 < Number(rec) <= s + 1 then Number(rec) - 1 else s)
  {
    hide Bin, Number;
    var t := if b == Bin(rec) && 0 < Number(rec) <= s + 1 then Number(rec) - 1 else s;
    forall n | 0 < n < t ensures Record(b, n) in used - {rec} {
      assert Bin(Record(b, n)) == b && Number(Record(b, n)) == n;
    }
  }

  function Least(a: nat, b: nat): nat {
    if a <= b then a else b
  }

  class SuballocPool {
    const ClusterSize: nat
    const SuballocListCount: nat
    const present: bool               // the volume has suballocation chains: VolumeSuballocRoot is set
    const ample: bool                 // there is memory for a longer bit list
    const reliable: bool              // no I/O error hits the records' clusters or their FAT entries
    var Limits: seq<nat>              // length of each bin's bit list; 0 when the bin has none
    var Totals: seq<nat>              // SuballocTotalBlocks
    var Search: seq<nat>              // SuballocSearchIndex
    var Used: set<ulong>              // records whose bit is set
    var Data: map<ulong, seq<byte>>   // what has been written to a record
    var Clusters: set<ulong>          // where the bins' chains and the directory entries that head them lie

    ghost predicate Valid()
      reads this
    {
      && SuballocListCount == ClusterSize / SUBALLOC_BLOCK_SIZE <= 0x80 && |Limits| == |Totals| == |Search| == SuballocListCount
      && (forall b :: 0 <= b < SuballocListCount ==> Search[b] <= Limits[b] <= Totals[b] < BIN_LIMIT)
      && (forall r :: r in Used ==> Known(r)) && (forall b :: 0 <= b < SuballocListCount ==> Hinted(Used, b, Search[b]))
    }

    /** As a mount leaves it: the bins have as many records as their chains have room for. */
    constructor (clusterSize: nat, totals: seq<nat>, clusters: set<ulong>, present: bool, ample: bool, reliable: bool)
      requires |totals| == clusterSize / SUBALLOC_BLOCK_SIZE <= 0x80 && forall b :: 0 <= b < |totals| ==> totals[b] < BIN_LIMIT
      ensures Valid() && Used == {} && ClusterSize == clusterSize && Limits == totals && Clusters == clusters
      ensures this.present == present && this.ample == ample && this.reliable == reliable
    {
      ClusterSize, SuballocListCount := clusterSize, clusterSize / SUBALLOC_BLOCK_SIZE;
      this.present, this.ample, this.reliable := present, ample, reliable;
      Limits, Totals, Search := totals, totals, seq(|totals|, _ => 0);
      Used, Data, Clusters := {}, map[], clusters;
    }

    /** The bytes of a record. */
    function Contents(rec: ulong): (r: seq<byte>)
      reads this`Data
      ensures |r| == Bin(rec) * SUBALLOC_BLOCK_SIZE
    {
      if rec in Data && |Data[rec]| == Bin(rec) * SUBALLOC_BLOCK_SIZE then Data[rec]
      else seq(Bin(rec) * SUBALLOC_BLOCK_SIZE, _ => 0)
    }

    predicate Known(rec: ulong)
      reads this`Limits
    {
      IsSuballoc(rec) && Bin(rec) < SuballocListCount && Bin(rec) < |Limits| && Number(rec) < Limits[Bin(rec)]
    }

    /** SetSuballocListValue(…, 1): no complaint when the record was marked before. */
    method SetSuballocListValue(rec: ulong) returns (code: ulong)
      requires Valid()
      modifies this`Used
      ensures Valid()
      ensures code == if Known(rec) then 0 else INVALID_PARAMETER
      ensures code == 0 <==> 0x8000_0000 <= rec < EOF && Bin(rec) < SuballocListCount && Number(rec) < Limits[Bin(rec)]
      ensures Used == if Known(rec) then old(Used) + {rec} else old(Used)
    {
      if !Known(rec) { return INVALID_PARAMETER; }
      Used := Used + {rec};
      return 0;
    }

    function GetSuballocSize(rec: ulong): nat {
      if Bin(rec) >= SuballocListCount then 0 else Bin(rec) * SUBALLOC_BLOCK_SIZE
    }

    lemma SizeOfKnown(rec: ulong)
      requires Known(rec)
      ensures GetSuballocSize(rec) == |Contents(rec)|
    {
    }

    /** The record an allocation would take from the bin. */
    ghost function Next(bin: nat): (n: nat)
      requires Valid() && bin < SuballocListCount
      reads this
      ensures Search[bin] <= n <= Limits[bin]
    {
      NextFree(Used, bin, Search[bin], Limits[bin])
    }

    /** The bin's bit list is extended: there is no free record from the search index on, or the index is at the end. */
    ghost predicate Extends(bin: nat)
      requires Valid() && bin < SuballocListCount
      reads this
    {
      Search[bin] + 1 >= Totals[bin] || Next(bin) == Limits[bin]
    }

    /** No record can be had, however much memory there is. */
    ghost predicate Refuses(size: nat)
      requires Valid()
      reads this
    {
      !present || size >= ClusterSize || BinFor(size) >= SuballocListCount || (Extends(BinFor(size)) && Totals[BinFor(size)] + 1 >= BIN_LIMIT)
    }

    /** AllocateSuballocRecord: the first free record of the least bin that holds `size`, from the search index on; 0 exactly if the
        request is refused, or memory is short for a longer bit list. */
    method AllocateSuballocRecord(size: nat) returns (rec: ulong)
      requires Valid()
      modifies this`Used, this`Limits, this`Totals, this`Search
      ensures Valid()
      ensures old(Refuses(size)) ==> rec == 0
      ensures rec == 0 ==> old(Refuses(size) || (!ample && Extends(BinFor(size))))
      ensures rec == 0 ==> Used == old(Used) && Limits == old(Limits) && Search == old(Search)
      ensures rec != 0 ==> size < ClusterSize && BinFor(size) < SuballocListCount && rec == Record(BinFor(size), old(Next(BinFor(size))))
      ensures rec != 0 ==> rec !in old(Used) && Used == old(Used) + {rec} && Known(rec) && Search == old(Search)[BinFor(size) := Number(rec)]
      ensures old(|Limits| == |Totals| == SuballocListCount)
      ensures rec != 0 ==> (var bin := BinFor(size);
        Limits == old(Limits)[bin := if old(Extends(bin)) then old(Totals)[bin] + 1 else old(Limits)[bin]])
      ensures forall r :: old(Known(r)) ==> Known(r)
    {
      hide BinFor, Record, NextFree, Hinted;
      var bin := BinFor(size);
      if !present || size >= ClusterSize || bin >= SuballocListCount { return 0; }
      var ok, number := FindRecord(bin);
      if !ok { return 0; }
      rec := Record(bin, number);
      forall b | 0 <= b < SuballocListCount ensures Hinted(Used + {rec}, b, if b == bin then number else Search[b]) {
        TakeKeepsHints(Used, bin, number, b, Search[b]);
      }
      Used, Search := Used + {rec}, Search[bin := number];
    }

    /** The first free record from the search index on, the bit list extended where that is needed. */
    method FindRecord(bin: nat) returns (ok: bool, number: nat)
      requires Valid() && bin < SuballocListCount
      modifies this`Limits, this`Totals
      ensures Valid() && forall r :: old(Known(r)) ==> Known(r)
      ensures ok ==> number == old(Next(bin)) && number < Limits[bin] && !old(Extends(bin) && Totals[bin] + 1 >= BIN_LIMIT)
      ensures ok ==> Limits == old(Limits)[bin := if old(Extends(bin)) then old(Totals)[bin] + 1 else old(Limits)[bin]]
      ensures !ok ==> Limits == old(Limits) && old(Extends(bin)) && (old(Totals)[bin] + 1 >= BIN_LIMIT || !ample)
    {
      hide Hinted, Record;
      var memory: bool := *;
      ghost var limit := Limits[bin];
      number, ok := 0, true;
      if Search[bin] + 1 >= Totals[bin] {
        ok := Extend(bin, memory);
        if !ok { return; }
        NextFreeStays(Used, bin, Search[bin], limit, Limits[bin]);
      }
      number := FindFree(bin);
      if number == Limits[bin] { ok := Extend(bin, memory); }
    }

    /** One more record for the bin; refused at the limit, and without memory. */
    method Extend(bin: nat, memory: bool) returns (ok: bool)
      requires Valid() && bin < SuballocListCount
      modifies this`Limits, this`Totals
      ensures Valid() && ok == (old(Totals)[bin] + 1 < BIN_LIMIT && (memory || ample))
      ensures if ok then Totals == old(Totals)[bin := old(Totals)[bin] + 1] && Limits == old(Limits)[bin := old(Totals)[bin] + 1]
              else Limits == old(Limits)
      ensures forall r :: old(Known(r)) ==> Known(r)
    {
      if Totals[bin] + 1 >= BIN_LIMIT { return false; }
      var hadList: bool := *;
      if !memory && !ample {
        if hadList || Limits[bin] > 0 { Totals := Totals[bin := Totals[bin] + 1]; }
        return false;
      }
      Totals := Totals[bin := Totals[bin] + 1];
      Limits := Limits[bin := Totals[bin]];
      return true;
    }

    /** The scan of the bit list from the search index on. */
    method FindFree(bin: nat) returns (number: nat)
      requires Valid() && bin < SuballocListCount
      ensures number == Next(bin)
    {
      number := Search[bin];
      while number < Limits[bin] && Record(bin, number) in Used
        invariant Search[bin] <= number <= Limits[bin] && NextFree(Used, bin, number, Limits[bin]) == Next(bin)
      {
        number := number + 1;
      }
    }

    /** Only a bin with next to all of its records in use is refused; record 0 may be free all the same. */
    lemma RefusedIsFull(size: nat, n: nat)
      requires Valid() && Refuses(size) && present && size < ClusterSize && BinFor(size) < SuballocListCount
      ensures Totals[BinFor(size)] == BIN_LIMIT - 1
      ensures 0 < n < Limits[BinFor(size)] && n < BIN_LIMIT - 2 ==> Record(BinFor(size), n) in Used
    {
      hide BinFor;
      assert Hinted(Used, BinFor(size), Search[BinFor(size)]);
    }

    method FreeSuballocRecord(rec: ulong) returns (code: ulong)
      requires Valid()
      modifies this`Used, this`Search
      ensures Valid()
      ensures code == if Known(rec) then 0 else INVALID_PARAMETER
      ensures code == 0 <==> 0x8000_0000 <= rec < EOF && Bin(rec) < SuballocListCount && Number(rec) < Limits[Bin(rec)]
      ensures Used == if Known(rec) then old(Used) - {rec} else old(Used)
      ensures old(|Search|) == SuballocListCount
      ensures Search == if Known(rec) && 0 < Number(rec) <= old(Search)[Bin(rec)] + 1 then old(Search)[Bin(rec) := Number(rec) - 1] else old(Search)
    {
      if !Known(rec) { return INVALID_PARAMETER; }
      forall b | 0 <= b < SuballocListCount ensures Hinted(Used - {rec}, b, if b == Bin(rec) && 0 < Number(rec) <= Search[b] + 1 then Number(rec) - 1 else Search[b]) {
        FreeKeepsHints(Used, rec, b, Search[b]);
      }
      Used := Used - {rec};
      if Number(rec) != 0 && Number(rec) - 1 <= Search[Bin(rec)] { Search := Search[Bin(rec) := Number(rec) - 1]; }
      return 0;
    }

    /** ReadSuballocRecord from offset 0, through NWReadFile: at most the record's size. What could not be read is counted all the same. */
    method ReadSuballocRecord(rec: ulong, count: nat) returns (buf: seq<byte>)
      requires Valid()
      ensures |buf| == if IsSuballoc(rec) && Bin(rec) < SuballocListCount then Least(count, Bin(rec) * SUBALLOC_BLOCK_SIZE) else 0
      ensures reliable ==> buf == Contents(rec)[..|buf|]
    {
      if !IsSuballoc(rec) || Bin(rec) >= SuballocListCount { return []; }
      buf := Contents(rec)[..Least(count, Bin(rec) * SUBALLOC_BLOCK_SIZE)];
      if !reliable {
        var other: seq<byte> := *;
        if |other| == |buf| { buf := other; }
      }
    }

    /** A further cluster belongs to the records' chains. */
    method Join(cluster: ulong)
      requires Valid()
      modifies this`Clusters
      ensures Valid() && Clusters == old(Clusters) + {cluster}
    {
      Clusters := Clusters + {cluster};
    }

    /** The records after a write: what a write that failed puts where is not known. */
    method PutBytes(rec: ulong, buf: seq<byte>)
      requires Valid() && |buf| <= Bin(rec) * SUBALLOC_BLOCK_SIZE
      modifies this`Data
      ensures Valid()
      ensures reliable ==> forall r :: r != rec ==> Contents(r) == old(Contents(r))
      ensures reliable ==> Contents(rec) == Splice(old(Contents(rec)), 0, buf)
    {
      if reliable {
        Data := Data[rec := Splice(Contents(rec), 0, buf)];
      } else {
        Data := *;
      }
    }
  }
}
