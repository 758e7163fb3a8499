/** Machine words and the marker values a FAT link can hold. */
module Words {

  const TWO_TO_THE_32: int := 0x1_0000_0000

  /** ULONG is 32 bits wide. */
  type ulong = n: int | 0 <= n < 0x1_0000_0000

  type byte = n: int | 0 <= n < 0x100

  /** (ULONG)-1: end of a chain, and the failure result of many routines. */
  const EOF: ulong := 0xFFFF_FFFF

  /** Links with the top bit set are end of file or suballocation records. */
  const MARKER: ulong := 0x8000_0000

  predicate IsMarker(link: ulong) {
    link >= MARKER
  }

  predicate IsSuballoc(link: ulong) {
    IsMarker(link) && link != EOF
  }

  /** (ULONG)(n - 1) */
  function Pred(n: ulong): ulong {
    if n == 0 then EOF else n - 1
  }

  /** value & 1 */
  predicate Odd(value: ulong) {
    value % 2 == 1
  }

  /** n & (limit - 1), the limit being a power of two: the bucket of every hash. */
  function Bucket(n: nat, limit: nat): (b: nat)
    requires limit > 0
    ensures b < limit
  {
    n % limit
  }

  /** The low 32 bits of an integer. */
  function Wrap(n: int): ulong {
    n % 0x1_0000_0000
  }

  /** The unit of disk transfers. */
  const IO_BLOCK_SIZE: nat := 4096

  const FILE_CORRUPT: ulong := 1
  const VOLUME_CORRUPT: ulong := 3
  const HASH_ERROR: ulong := 5
  const DISK_IO_ERROR: ulong := 6
  const INVALID_PARAMETER: ulong := 8
  const NOT_PERMITTED: ulong := 21

  datatype Option<+T> = None | Some(value: T)

  ghost predicate NoDup<T>(s: seq<T>) {
    forall i, j :: 0 <= i < j < |s| ==> s[i] != s[j]
  }

  lemma UpdateFirst<T>(a: seq<T>, b: seq<T>, i: nat, v: T)
    requires i < |a|
    ensures a[i := v] + b == (a + b)[i := v]
  {
  }

  lemma UpdateSecond<T>(a: seq<T>, b: seq<T>, i: nat, v: T)
    requires i < |b|
    ensures a + b[i := v] == (a + b)[|a| + i := v]
  {
  }
}
