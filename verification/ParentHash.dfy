/** Children of a directory: the parent hash (hash.c) and the enumeration that resumes from its cookie (dir.c). */
module ParentHashes {
  import opened Words

  const DOS_NAME_SPACE: nat := 0
  const DELETED_DIRECTORY: ulong := 0xFFFF_FFFE
  const ROOT_NODE: ulong := 0xFFFF_FFFD

  /** The part of a HASH record that the enumeration looks at; id tells records apart as their addresses do. */
  datatype Name = Name(id: nat, DirNo: ulong, Parent: ulong, Root: ulong, NameSpace: nat)

  predicate Live(n: Name) {
    n.Root != EOF
  }

  predicate ChildOf(n: Name, dir: ulong) {
    n.Parent == dir && Live(n)
  }

  // ---- buckets --------------------------------------------------------------

  /** Children of one parent stand in ascending order of directory number, however the parents are mixed. */
  ghost predicate Ascending(b: seq<Name>) {
    forall i, j :: 0 <= i < j < |b| && b[i].Parent == b[j].Parent ==> b[i].DirNo <= b[j].DirNo
  }

  /** Live DOS records name themselves as root. */
  ghost predicate Rooted(b: seq<Name>) {
    forall i :: 0 <= i < |b| && Live(b[i]) ==> b[i].Root == b[i].DirNo
  }

  predicate GoesBefore(name: Name, p: Name) {
    p.Parent == name.Parent && p.DirNo >= name.DirNo
  }

  /** The place of a new record: before the first sibling that does not precede it. */
  function Place(b: seq<Name>, name: Name): (k: nat)
    ensures k <= |b| && (k < |b| ==> GoesBefore(name, b[k])) && forall i :: 0 <= i < k ==> !GoesBefore(name, b[i])
  {
    if b == [] || GoesBefore(name, b[0]) then 0 else 1 + Place(b[1..], name)
  }

  function Added(b: seq<Name>, name: Name): seq<Name> {
    b[..Place(b, name)] + [name] + b[Place(b, name)..]
  }

  function Removed(b: seq<Name>, name: Name): (r: seq<Name>)
    ensures name !in b ==> r == b
  {
    if b == [] then [] else if b[0] == name then b[1..] else [b[0]] + Removed(b[1..], name)
  }

  lemma AddKeepsOrder(b: seq<Name>, name: Name)
    requires Ascending(b)
    ensures Ascending(Added(b, name)) && multiset(Added(b, name)) == multiset(b) + multiset{name}
  {
    hide Place;
    var k, r := Place(b, name), Added(b, name);
    assert multiset(r) == multiset(b) + multiset{name} by { assert b == b[..k] + b[k..]; }
    hide Added;
    AddedAt(b, name, 0);
    forall i, j | 0 <= i < j < |r| && r[i].Parent == r[j].Parent ensures r[i].DirNo <= r[j].DirNo {
      AddedInOrder(b, name, i, j);
    }
  }

  lemma AddedInOrder(b: seq<Name>, name: Name, i: nat, j: nat)
    requires Ascending(b) && i < j <= |b| && |Added(b, name)| == |b| + 1
    ensures var r := Added(b, name); r[i].Parent == r[j].Parent ==> r[i].DirNo <= r[j].DirNo
  {
    var k := Place(b, name);
    AddedAt(b, name, i);
    AddedAt(b, name, j);
    hide Added, Place;
    if j == k {
      assert !GoesBefore(name, b[i]);
    } else if i == k {
      assert GoesBefore(name, b[k]);
    }
  }

  lemma AddedAt(b: seq<Name>, name: Name, i: nat)
    requires i <= |b|
    ensures var k := Place(b, name); |Added(b, name)| == |b| + 1 && Added(b, name)[i] == if i < k then b[i] else if i == k then name else b[i - 1]
  {
    hide Place;
  }

  lemma {:induction false} RemoveIsSplice(b: seq<Name>, name: Name) returns (k: nat)
    requires name in b
    ensures k < |b| && b[k] == name && Removed(b, name) == b[..k] + b[k + 1..]
    ensures name !in b[..k]
  {
    if b[0] == name {
      k := 0;
    } else {
      var m := RemoveIsSplice(b[1..], name);
      k := m + 1;
      assert b[..k] == [b[0]] + b[1..][..m];
    }
  }

  lemma RemoveKeepsOrder(b: seq<Name>, name: Name)
    requires Ascending(b) && name in b
    ensures Ascending(Removed(b, name)) && multiset(Removed(b, name)) == multiset(b) - multiset{name}
  {
    hide Removed, Ascending;
    var k := RemoveIsSplice(b, name);
    var r := b[..k] + b[k + 1..];
    assert b == b[..k] + [b[k]] + b[k + 1..];
    assert multiset(b) == multiset(b[..k]) + multiset{name} + multiset(b[k + 1..]);
    SpliceInOrder(b, k);
  }

  lemma SpliceInOrder(b: seq<Name>, k: nat)
    requires Ascending(b) && k < |b|
    ensures Ascending(b[..k] + b[k + 1..])
  {
    var r := b[..k] + b[k + 1..];
    assert forall i :: 0 <= i < |r| ==> r[i] == if i < k then b[i] else b[i + 1];
  }

  lemma RemovedFrom(b: seq<Name>, name: Name)
    requires name in b
    ensures forall i :: 0 <= i < |Removed(b, name)| ==> Removed(b, name)[i] in b
  {
    hide Removed;
    var k := RemoveIsSplice(b, name);
  }

  lemma {:induction false} RemoveFirst(a: seq<Name>, name: Name, c: seq<Name>)
    requires name !in a
    ensures Removed(a + [name] + c, name) == a + c
    decreases a
  {
    var s := a + [name] + c;
    if a == [] {
      assert s[0] == name && s[1..] == c;
    } else {
      RemoveFirst(a[1..], name, c);
      assert s[0] == a[0] && s[1..] == a[1..] + [name] + c;
      assert a + c == [a[0]] + (a[1..] + c);
    }
  }

  /** Removing what was just added gives the bucket back. */
  lemma RemoveUndoesAdd(b: seq<Name>, name: Name)
    requires name !in b
    ensures Removed(Added(b, name), name) == b
  {
    var k := Place(b, name);
    RemoveFirst(b[..k], name, b[k..]);
    assert b == b[..k] + b[k..];
  }

  // ---- the lookup -----------------------------------------------------------

  /** GetHashNameSpaceEntry along a bucket: the first live child whose root is not below `entry`. */
  function FirstFrom(b: seq<Name>, entry: ulong, dir: ulong): (r: Option<Name>)
    ensures r.Some? ==> r.value in b && ChildOf(r.value, dir) && r.value.Root >= entry
    ensures r == None ==> forall n :: n in b && ChildOf(n, dir) ==> n.Root < entry
  {
    if b == [] then None
    else if ChildOf(b[0], dir) && b[0].Root >= entry then Some(b[0])
    else FirstFrom(b[1..], entry, dir)
  }

  /** In an ordered bucket it is the child with the least root. */
  lemma {:induction false} FirstIsLeast(b: seq<Name>, entry: ulong, dir: ulong, n: Name)
    requires Ascending(b) && Rooted(b) && n in b && ChildOf(n, dir) && n.Root >= entry
    ensures FirstFrom(b, entry, dir).Some? && FirstFrom(b, entry, dir).value.Root <= n.Root
  {
    var i :| 0 <= i < |b| && b[i] == n;
    if !(ChildOf(b[0], dir) && b[0].Root >= entry) {
      assert b[1..][i - 1] == n;
      FirstIsLeast(b[1..], entry, dir, n);
    }
  }

  // ---- the enumeration ------------------------------------------------------

  /** One lookup of an enumeration: the bucket as it was then, and whether the caller took what was found. */
  datatype Visit = Visit(bucket: seq<Name>, taken: bool)

  ghost predicate GoodVisits(visits: seq<Visit>) {
    forall i :: 0 <= i < |visits| ==> Ascending(visits[i].bucket) && Rooted(visits[i].bucket)
  }

  /** The roots an enumeration reports while the directory changes under it. */
  ghost function Reported(visits: seq<Visit>, entry: ulong, dir: ulong): seq<ulong>
    decreases visits
  {
    if visits == [] then [] else
    match FirstFrom(visits[0].bucket, entry, dir)
    case None => []
    case Some(n) =>
      if visits[0].taken then [n.Root] + Reported(visits[1..], n.Root + 1, dir) else Reported(visits[1..], entry, dir)
  }

  /** The enumeration comes to a lookup that finds nothing more. */
  ghost predicate Ends(visits: seq<Visit>, entry: ulong, dir: ulong)
    decreases visits
  {
    visits != [] &&
    match FirstFrom(visits[0].bucket, entry, dir)
    case None => true
    case Some(n) => Ends(visits[1..], if visits[0].taken then n.Root + 1 else entry, dir)
  }

  ghost predicate Present(b: seq<Name>, dir: ulong, root: ulong) {
    exists n :: n in b && ChildOf(n, dir) && n.Root == root
  }

  /** Each report was there when it was made. */
  lemma {:induction false} ReportsWereThere(visits: seq<Visit>, entry: ulong, dir: ulong)
    ensures forall k :: 0 <= k < |Reported(visits, entry, dir)| ==> entry <= Reported(visits, entry, dir)[k]
    ensures forall k, m :: 0 <= k < m < |Reported(visits, entry, dir)| ==> Reported(visits, entry, dir)[k] < Reported(visits, entry, dir)[m]
    ensures forall root :: root in Reported(visits, entry, dir) ==>
      exists i :: 0 <= i < |visits| && visits[i].taken && Present(visits[i].bucket, dir, root)
    decreases visits
  {
    if visits != [] {
      var rest := visits[1..];
      match FirstFrom(visits[0].bucket, entry, dir)
      case None =>
      case Some(n) =>
        var next := if visits[0].taken then n.Root + 1 else entry;
        ReportsWereThere(rest, next, dir);
        assert Present(visits[0].bucket, dir, n.Root);
        forall root | root in Reported(rest, next, dir)
          ensures exists i :: 0 <= i < |visits| && visits[i].taken && Present(visits[i].bucket, dir, root)
        {
          var i :| 0 <= i < |rest| && rest[i].taken && Present(rest[i].bucket, dir, root);
          assert visits[i + 1] == rest[i];
        }
    }
  }

  /** A child that is there the whole time is reported. */
  lemma {:induction false} PersistentIsReported(visits: seq<Visit>, entry: ulong, dir: ulong, root: ulong)
    requires GoodVisits(visits) && Ends(visits, entry, dir) && root >= entry
    requires forall i :: 0 <= i < |visits| ==> Present(visits[i].bucket, dir, root)
    ensures root in Reported(visits, entry, dir)
    decreases visits
  {
    assert Present(visits[0].bucket, dir, root);
    var n :| n in visits[0].bucket && ChildOf(n, dir) && n.Root == root;
    FirstIsLeast(visits[0].bucket, entry, dir, n);
    var first := FirstFrom(visits[0].bucket, entry, dir).value;
    var rest := visits[1..];
    assert forall i :: 0 <= i < |rest| ==> rest[i] == visits[i + 1];
    if !visits[0].taken {
      PersistentIsReported(rest, entry, dir, root);
    } else if first.Root < root {
      PersistentIsReported(rest, first.Root + 1, dir, root);
    }
  }

  /** However entries come and go, an enumeration that has ended reported every child that was there throughout, exactly once,
      in ascending order, and nothing that was never there. */
  lemma EnumerationIsExact(visits: seq<Visit>, dir: ulong)
    requires GoodVisits(visits) && Ends(visits, 0, dir)
    ensures NoDup(Reported(visits, 0, dir))
    ensures forall root: ulong :: (forall i :: 0 <= i < |visits| ==> Present(visits[i].bucket, dir, root)) ==> root in Reported(visits, 0, dir)
    ensures forall root :: root in Reported(visits, 0, dir) ==>
      exists i :: 0 <= i < |visits| && visits[i].taken && Present(visits[i].bucket, dir, root)
  {
    ReportsWereThere(visits, 0, dir);
    forall root: ulong | forall i :: 0 <= i < |visits| ==> Present(visits[i].bucket, dir, root) ensures root in Reported(visits, 0, dir) {
      PersistentIsReported(visits, 0, dir, root);
    }
  }

  /** It does end: after that many lookups taken, at the latest. */
  lemma {:induction false} EnumerationEnds(visits: seq<Visit>, entry: ulong, dir: ulong)
    requires |visits| >= TWO_TO_THE_32 - entry && forall i :: 0 <= i < |visits| ==> visits[i].taken
    ensures Ends(visits, entry, dir)
    decreases visits
  {
    match FirstFrom(visits[0].bucket, entry, dir)
    case None =>
    case Some(n) => EnumerationEnds(visits[1..], n.Root + 1, dir);
  }

  // ---- an enumeration of a directory that stays as it is ---------------------

  ghost function Listing(b: seq<Name>, entry: ulong, dir: ulong): seq<ulong>
    decreases TWO_TO_THE_32 - entry
  {
    match FirstFrom(b, entry, dir)
    case None => []
    case Some(n) => [n.Root] + Listing(b, n.Root + 1, dir)
  }

  lemma ListingStep(b: seq<Name>, entry: ulong, dir: ulong)
    ensures FirstFrom(b, entry, dir) == None ==> Listing(b, entry, dir) == []
    ensures FirstFrom(b, entry, dir).Some? ==> var root := FirstFrom(b, entry, dir).value.Root;
      root != EOF && Listing(b, entry, dir) != [] && Listing(b, entry, dir)[0] == root && Listing(b, entry, dir)[1..] == Listing(b, root + 1, dir)
  {
  }

  /** Every live child from `entry` on, in ascending order and once each. */
  lemma {:induction false} ListingIsExact(b: seq<Name>, entry: ulong, dir: ulong)
    requires Ascending(b) && Rooted(b)
    ensures forall k, m :: 0 <= k < m < |Listing(b, entry, dir)| ==> Listing(b, entry, dir)[k] < Listing(b, entry, dir)[m]
    ensures forall root: ulong :: root in Listing(b, entry, dir) <==> root >= entry && Present(b, dir, root)
    decreases TWO_TO_THE_32 - entry
  {
    hide Ascending, Rooted, Present, Listing;
    var all := Listing(b, entry, dir);
    ListingStep(b, entry, dir);
    match FirstFrom(b, entry, dir)
    case None => NothingPresent(b, entry, dir);
    case Some(first) =>
      var rest := all[1..];
      ListingIsExact(b, first.Root + 1, dir);
      FirstPresent(b, entry, dir);
      assert all == [first.Root] + rest && forall m :: 0 <= m < |rest| ==> rest[m] in rest;
  }

  lemma NothingPresent(b: seq<Name>, entry: ulong, dir: ulong)
    requires FirstFrom(b, entry, dir) == None
    ensures forall root: ulong :: root >= entry ==> !Present(b, dir, root)
  {
  }

  lemma FirstPresent(b: seq<Name>, entry: ulong, dir: ulong)
    requires Ascending(b) && Rooted(b) && FirstFrom(b, entry, dir).Some?
    ensures var first := FirstFrom(b, entry, dir).value.Root;
      first >= entry && Present(b, dir, first) && forall root: ulong :: root >= entry && Present(b, dir, root) ==> root >= first
  {
    hide Ascending, Rooted, FirstFrom;
    var first := FirstFrom(b, entry, dir).value;
    assert first in b && ChildOf(first, dir);
    forall root: ulong | root >= entry && Present(b, dir, root) ensures root >= first.Root {
      var n :| n in b && ChildOf(n, dir) && n.Root == root;
      FirstIsLeast(b, entry, dir, n);
    }
  }

  /** Going on after the k-th report lists the rest. */
  lemma {:induction false} ListingResumes(b: seq<Name>, entry: ulong, dir: ulong, k: nat)
    requires 0 < k <= |Listing(b, entry, dir)|
    ensures Listing(b, entry, dir)[k - 1] != EOF
    ensures Listing(b, entry, dir)[k..] == Listing(b, Listing(b, entry, dir)[k - 1] + 1, dir)
    decreases k
  {
    ListingStep(b, entry, dir);
    hide Listing, FirstFrom;
    var root := Listing(b, entry, dir)[0];
    if k > 1 {
      ListingResumes(b, root + 1, dir, k - 1);
      assert Listing(b, entry, dir) == [root] + Listing(b, root + 1, dir);
    }
  }

  /** What is listed is there. */
  lemma {:induction false} ListingIsThere(b: seq<Name>, entry: ulong, dir: ulong)
    ensures forall root :: root in Listing(b, entry, dir) ==> Present(b, dir, root)
    decreases TWO_TO_THE_32 - entry
  {
    hide Listing, Present, FirstFrom;
    ListingStep(b, entry, dir);
    if FirstFrom(b, entry, dir).Some? {
      var first := FirstFrom(b, entry, dir).value;
      FirstIsPresent(b, entry, dir);
      ListingIsThere(b, first.Root + 1, dir);
      assert Listing(b, entry, dir) == [first.Root] + Listing(b, entry, dir)[1..];
    }
  }

  lemma FirstIsPresent(b: seq<Name>, entry: ulong, dir: ulong)
    requires FirstFrom(b, entry, dir).Some?
    ensures Present(b, dir, FirstFrom(b, entry, dir).value.Root)
  {
    hide FirstFrom;
  }

  // ---- a run of calls -------------------------------------------------------

  /** What others do to the directory between two calls. */
  datatype Change = Insert(name: Name) | Delete(name: Name)

  /** One call of nwfs_dir_readdir, with what was changed before it and how many entries there was room for. */
  datatype Call = Call(changes: seq<Change>, room: nat)

  /** A change as bucket v of the hash sees it. */
  function ChangedBy(b: seq<Name>, limit: nat, v: nat, c: Change): seq<Name>
    requires limit > 0
  {
    if c.name.Parent == EOF || Bucket(c.name.Parent, limit) != v then b else
    match c
    case Insert(n) => if n.NameSpace == DOS_NAME_SPACE then Added(b, n) else b
    case Delete(n) => Removed(b, n)
  }

  function Changed(b: seq<Name>, limit: nat, v: nat, cs: seq<Change>): seq<Name>
    requires limit > 0
    decreases cs
  {
    if cs == [] then b else Changed(ChangedBy(b, limit, v, cs[0]), limit, v, cs[1..])
  }

  /** A live record names itself as root, and its number is one whose cookie resumes. */
  predicate Sane(n: Name) {
    Live(n) ==> n.Root == n.DirNo && n.Root < ROOT_NODE
  }

  ghost predicate Tidy(b: seq<Name>) {
    Ascending(b) && forall n :: n in b ==> Sane(n)
  }

  ghost predicate SaneChanges(cs: seq<Change>) {
    forall c :: c in cs && c.Insert? ==> Sane(c.name)
  }

  lemma ChangeKeepsTidy(b: seq<Name>, limit: nat, v: nat, c: Change)
    requires limit > 0 && Tidy(b) && (c.Insert? ==> Sane(c.name))
    ensures Tidy(ChangedBy(b, limit, v, c))
  {
    hide Ascending, Added, Removed, Sane, Bucket;
    AddKeepsOrder(b, c.name);
    AddedMembers(b, c.name);
    if c.name in b {
      RemoveKeepsOrder(b, c.name);
      assert forall n :: n in Removed(b, c.name) ==> n in multiset(Removed(b, c.name));
    }
  }

  lemma {:induction false} ChangesKeepTidy(b: seq<Name>, limit: nat, v: nat, cs: seq<Change>)
    requires limit > 0 && Tidy(b) && SaneChanges(cs)
    ensures Tidy(Changed(b, limit, v, cs))
    decreases cs
  {
    hide Tidy, Sane;
    if cs != [] {
      ChangeKeepsTidy(b, limit, v, cs[0]);
      ChangesKeepTidy(ChangedBy(b, limit, v, cs[0]), limit, v, cs[1..]);
    }
  }

  /** The lookups of a run of calls that begins at `entry`: each finds and reports a child, but for the last of a call that had room
      and found none, which ends the run. */
  ghost function Lookups(b: seq<Name>, limit: nat, calls: seq<Call>, entry: ulong, dir: ulong): seq<Visit>
    requires limit > 0
    decreases calls
  {
    if calls == [] then [] else
    var now := Changed(b, limit, Bucket(dir, limit), calls[0].changes);
    var got := Upto(Listing(now, entry, dir), calls[0].room);
    if got == [] && calls[0].room > 0 then [Visit(now, false)]
    else Taken(now, |got|) + Lookups(now, limit, calls[1..], After(got, entry), dir)
  }

  ghost function Taken(b: seq<Name>, n: nat): (r: seq<Visit>)
    ensures |r| == n && forall i :: 0 <= i < n ==> r[i] == Visit(b, true)
  {
    if n == 0 then [] else [Visit(b, true)] + Taken(b, n - 1)
  }

  /** Where the next call begins. */
  function After(got: seq<ulong>, entry: ulong): ulong {
    if got == [] then entry else var last: int := got[|got| - 1]; Wrap(last + 1)
  }

  /** One lookup that finds a child and reports it. */
  lemma ReportStep(b: seq<Name>, rest: seq<Visit>, entry: ulong, dir: ulong)
    requires FirstFrom(b, entry, dir).Some?
    ensures var root := FirstFrom(b, entry, dir).value.Root;
      && root != EOF && Reported([Visit(b, true)] + rest, entry, dir) == [root] + Reported(rest, root + 1, dir)
      && (Ends([Visit(b, true)] + rest, entry, dir) <==> Ends(rest, root + 1, dir))
  {
    assert ([Visit(b, true)] + rest)[1..] == rest;
  }

  /** n lookups of a bucket that has so much to list report just that, and what follows begins after it. */
  lemma {:induction false} TakenReports(b: seq<Name>, n: nat, entry: ulong, dir: ulong, more: seq<Visit>)
    requires n <= |Listing(b, entry, dir)|
    ensures var next := After(Listing(b, entry, dir)[..n], entry);
      && Reported(Taken(b, n) + more, entry, dir) == Listing(b, entry, dir)[..n] + Reported(more, next, dir)
      && (Ends(Taken(b, n) + more, entry, dir) <==> Ends(more, next, dir))
    decreases n
  {
    hide Reported, Ends, FirstFrom, Live, ChildOf, Listing, Wrap;
    if n == 0 {
      assert Taken(b, n) + more == more;
    } else {
      ListingStep(b, entry, dir);
      ReportStep(b, Taken(b, n - 1) + more, entry, dir);
      var root := FirstFrom(b, entry, dir).value.Root;
      Successor(root);
      var next: ulong := root + 1;
      TakenReports(b, n - 1, next, dir, more);
      assert Taken(b, n) + more == [Visit(b, true)] + (Taken(b, n - 1) + more);
      assert Listing(b, entry, dir)[..n] == [root] + Listing(b, next, dir)[..n - 1];
    }
  }

  lemma Successor(root: ulong)
    requires root != EOF
    ensures Wrap(root + 1) == root + 1
  {
  }

  /** What a run reports. */
  ghost function RootsOf(b: seq<Name>, limit: nat, calls: seq<Call>, entry: ulong, dir: ulong): seq<ulong>
    requires limit > 0
    decreases calls
  {
    if calls == [] then [] else
    var now := Changed(b, limit, Bucket(dir, limit), calls[0].changes);
    var got := Upto(Listing(now, entry, dir), calls[0].room);
    if got == [] && calls[0].room > 0 then [] else got + RootsOf(now, limit, calls[1..], After(got, entry), dir)
  }

  /** The run comes to a call that had room and found nothing. */
  ghost predicate Finishes(b: seq<Name>, limit: nat, calls: seq<Call>, entry: ulong, dir: ulong)
    requires limit > 0
    decreases calls
  {
    calls != [] &&
    var now := Changed(b, limit, Bucket(dir, limit), calls[0].changes);
    var got := Upto(Listing(now, entry, dir), calls[0].room);
    (got == [] && calls[0].room > 0) || Finishes(now, limit, calls[1..], After(got, entry), dir)
  }

  /** That is the report of its lookups, each of a bucket in order, and the enumeration ends if the run finishes. */
  lemma {:induction false} RunReports(b: seq<Name>, limit: nat, calls: seq<Call>, entry: ulong, dir: ulong)
    requires limit > 0 && Tidy(b) && forall i :: 0 <= i < |calls| ==> SaneChanges(calls[i].changes)
    ensures Reported(Lookups(b, limit, calls, entry, dir), entry, dir) == RootsOf(b, limit, calls, entry, dir)
    ensures GoodVisits(Lookups(b, limit, calls, entry, dir))
    ensures Finishes(b, limit, calls, entry, dir) ==> Ends(Lookups(b, limit, calls, entry, dir), entry, dir)
    decreases calls
  {
    hide Tidy, Sane, SaneChanges, Changed, Bucket, Wrap, Listing, FirstFrom, After;
    if calls != [] {
      var now := Changed(b, limit, Bucket(dir, limit), calls[0].changes);
      var all := Listing(now, entry, dir);
      var got := Upto(all, calls[0].room);
      ChangesKeepTidy(b, limit, Bucket(dir, limit), calls[0].changes);
      TidyIsGood(now);
      ListingStep(now, entry, dir);
      if got == [] && calls[0].room > 0 {
      } else {
        var more := Lookups(now, limit, calls[1..], After(got, entry), dir);
        RunReports(now, limit, calls[1..], After(got, entry), dir);
        assert got == all[..|got|];
        TakenReports(now, |got|, entry, dir, more);
      }
    }
  }

  lemma RunEnds(calls: seq<Call>, dir: ulong)
    ensures Wrap(0) == 0 && forall b, limit: nat, entry :: limit > 0 ==> RootsOf(b, limit, [], entry, dir) == [] && !Finishes(b, limit, [], entry, dir)
  {
  }

  /** The k-th call of a run, and the rest. */
  lemma RunStep(b: seq<Name>, limit: nat, calls: seq<Call>, k: nat, entry: ulong, dir: ulong)
    requires limit > 0 && k < |calls|
    ensures var now := Changed(b, limit, Bucket(dir, limit), calls[k].changes);
      var got := Upto(Listing(now, entry, dir), calls[k].room);
      var last := got == [] && calls[k].room > 0;
      && RootsOf(b, limit, calls[k..], entry, dir) == got + (if last then [] else RootsOf(now, limit, calls[k + 1..], After(got, entry), dir))
      && (Finishes(b, limit, calls[k..], entry, dir) <==> last || Finishes(now, limit, calls[k + 1..], After(got, entry), dir))
  {
    hide Changed, Bucket, Listing, After;
    assert calls[k..][0] == calls[k] && calls[k..][1..] == calls[k + 1..];
  }

  lemma TidyIsGood(b: seq<Name>)
    requires Tidy(b)
    ensures Ascending(b) && Rooted(b)
  {
    hide Ascending;
    assert forall i :: 0 <= i < |b| ==> b[i] in b;
  }

  /** A record that nobody deletes stays in its bucket. */
  lemma {:induction false} ChangesLeave(b: seq<Name>, limit: nat, v: nat, cs: seq<Change>, n: Name)
    requires limit > 0 && n in b && Delete(n) !in cs
    ensures n in Changed(b, limit, v, cs)
    decreases cs
  {
    hide Place, Bucket;
    if cs != [] {
      var now := ChangedBy(b, limit, v, cs[0]);
      assert n in now by {
        match cs[0]
        case Insert(m) => assert b == b[..Place(b, m)] + b[Place(b, m)..];
        case Delete(m) => RemovedLeaves(b, m, n);
      }
      ChangesLeave(now, limit, v, cs[1..], n);
    }
  }

  lemma {:induction false} RemovedLeaves(b: seq<Name>, m: Name, n: Name)
    requires n in b && n != m
    ensures n in Removed(b, m)
  {
    if b[0] != m && b[0] != n { RemovedLeaves(b[1..], m, n); }
  }

  /** A record in a bucket was there or has been inserted since. */
  lemma {:induction false} ChangesBring(b: seq<Name>, limit: nat, v: nat, cs: seq<Change>, n: Name)
    requires limit > 0 && n in Changed(b, limit, v, cs)
    ensures n in b || Insert(n) in cs
    decreases cs
  {
    hide Place, Bucket;
    if cs != [] {
      var now := ChangedBy(b, limit, v, cs[0]);
      ChangesBring(now, limit, v, cs[1..], n);
      if n in now && n !in b {
        match cs[0]
        case Insert(m) => AddedMembers(b, m);
        case Delete(m) => RemovedMembers(b, m, n);
      }
    }
  }

  lemma {:induction false} RemovedMembers(b: seq<Name>, m: Name, n: Name)
    requires n in Removed(b, m)
    ensures n in b
  {
    if b[0] != m && b[0] != n { RemovedMembers(b[1..], m, n); }
  }

  /** Nobody deletes the record between the calls. */
  ghost predicate NeverDeleted(calls: seq<Call>, n: Name) {
    forall k :: 0 <= k < |calls| ==> Delete(n) !in calls[k].changes
  }

  ghost predicate Inserted(calls: seq<Call>, n: Name) {
    exists k :: 0 <= k < |calls| && Insert(n) in calls[k].changes
  }

  lemma CallsRest(calls: seq<Call>, n: Name)
    requires calls != []
    ensures NeverDeleted(calls, n) ==> Delete(n) !in calls[0].changes && NeverDeleted(calls[1..], n)
    ensures Insert(n) in calls[0].changes || Inserted(calls[1..], n) ==> Inserted(calls, n)
  {
    if Inserted(calls[1..], n) {
      var k :| 0 <= k < |calls[1..]| && Insert(n) in calls[1..][k].changes;
      assert Insert(n) in calls[k + 1].changes;
    }
  }

  /** What an enumeration lists, by the records: each root is that of a child there at the start or inserted since, and once finished every
      child there at the start that nobody deletes is among them. */
  ghost predicate Enumerated(calls: seq<Call>, before: set<Name>, parent: ulong, roots: seq<ulong>, finished: bool) {
    && (forall root :: root in roots ==> exists n :: (n in before || Inserted(calls, n)) && n.Parent == parent && n.Root == root)
    && (finished ==> forall n :: n in before && n.Parent == parent && n.Root != EOF && NeverDeleted(calls, n) ==> n.Root in roots)
  }

  lemma EnumeratedLess(calls: seq<Call>, before: set<Name>, parent: ulong, roots: seq<ulong>, finished: bool)
    ensures Enumerated(calls, before, parent, roots, true) ==> Enumerated(calls, before, parent, roots, finished)
    ensures !finished && Enumerated(calls, before, parent, roots, false) ==> Enumerated(calls, before, parent, roots, finished)
  {
  }

  /** A record there at the start and not deleted is there at every lookup. */
  lemma {:induction false} LookupsHold(b: seq<Name>, limit: nat, calls: seq<Call>, entry: ulong, dir: ulong, n: Name)
    requires limit > 0 && n in b && NeverDeleted(calls, n)
    ensures forall i :: 0 <= i < |Lookups(b, limit, calls, entry, dir)| ==> n in Lookups(b, limit, calls, entry, dir)[i].bucket
    decreases calls
  {
    hide NeverDeleted, Changed, Bucket, Listing, After;
    if calls != [] {
      CallsRest(calls, n);
      var now := Changed(b, limit, Bucket(dir, limit), calls[0].changes);
      var got := Upto(Listing(now, entry, dir), calls[0].room);
      ChangesLeave(b, limit, Bucket(dir, limit), calls[0].changes, n);
      LookupsHold(now, limit, calls[1..], After(got, entry), dir, n);
    }
  }

  /** A record seen at a lookup was there at the start or was inserted. */
  lemma {:induction false} LookupsBring(b: seq<Name>, limit: nat, calls: seq<Call>, entry: ulong, dir: ulong, i: nat, n: Name)
    requires limit > 0 && i < |Lookups(b, limit, calls, entry, dir)| && n in Lookups(b, limit, calls, entry, dir)[i].bucket
    ensures n in b || Inserted(calls, n)
    decreases calls
  {
    hide Inserted, Changed, Bucket, Listing, After;
    CallsRest(calls, n);
    var now := Changed(b, limit, Bucket(dir, limit), calls[0].changes);
    var got := Upto(Listing(now, entry, dir), calls[0].room);
    if n in now {
      ChangesBring(b, limit, Bucket(dir, limit), calls[0].changes, n);
    } else {
      LookupsBring(now, limit, calls[1..], After(got, entry), dir, i - |got|, n);
    }
  }

  // ---- the tables -----------------------------------------------------------

  /** The record of the wanted name space, or the DOS record itself. */
  function InNameSpace(n: Name, ring: seq<Name>, ns: nat): (r: Name)
    ensures r == n || (r in ring && r.NameSpace == ns)
    ensures r.NameSpace == ns || forall m :: m in ring ==> m.NameSpace != ns
  {
    if n.NameSpace == ns || ring == [] then n
    else if ring[0].NameSpace == ns then ring[0]
    else InNameSpace(n, ring[1..], ns)
  }

  /** No record stands twice in the ring. */
  ghost predicate EachOnce(ring: seq<Name>) {
    forall i, j :: 0 <= i < j < |ring| ==> ring[i].id != ring[j].id
  }

  predicate HasRecord(ring: seq<Name>, id: nat) {
    exists n :: n in ring && n.id == id
  }

  class DirectoryHash {
    const ParentHashLimit: nat
    var ParentHash: seq<seq<Name>>
    var Records: map<ulong, Name>      // GetHashFromDirectoryNumber
    var Blocks: map<ulong, ulong>      // of each of these records
    var Rings: map<ulong, seq<Name>>   // the nlnext chain of each root record
    var DeletedDirNo: ulong

    ghost predicate Valid()
      reads this
      ensures Valid() ==> |ParentHash| == ParentHashLimit > 0
    {
      && |ParentHash| == ParentHashLimit > 0 && Blocks.Keys == Rings.Keys == Records.Keys
      && (forall v :: 0 <= v < ParentHashLimit ==> Ascending(ParentHash[v]))
      && (forall v, i :: 0 <= v < ParentHashLimit && 0 <= i < |ParentHash[v]| ==>
            ParentHash[v][i].NameSpace == DOS_NAME_SPACE && Bucket(ParentHash[v][i].Parent, ParentHashLimit) == v)
      && (forall root :: root in Rings ==> EachOnce(Rings[root]) && forall n :: n in Rings[root] ==> n.Root == root)
    }

    /** The record that counts the children of `parent`. */
    function DirectoryOf(parent: ulong): Option<ulong>
      reads this
    {
      var d := if parent == DELETED_DIRECTORY then DeletedDirNo else if parent == ROOT_NODE then 0 else parent;
      if (parent == DELETED_DIRECTORY && DeletedDirNo == 0) || d !in Records then None else Some(d)
    }

    /** The record whose count a removal takes back; it looks the parent up in its own way. */
    function LeftBy(parent: ulong): Option<ulong>
      reads this
    {
      var d := if parent == ROOT_NODE then 0 else if parent == DELETED_DIRECTORY && DeletedDirNo != 0 then DeletedDirNo else parent;
      if d !in Records then None else Some(d)
    }

    /** Adding and removing count at the same directory, unless there is no deleted-files directory and some record has the
        reserved number itself. */
    lemma CountsAgree(parent: ulong)
      ensures DirectoryOf(parent) == LeftBy(parent) <==> !(parent == DELETED_DIRECTORY && DeletedDirNo == 0 && DELETED_DIRECTORY in Records)
    {
    }

    ghost function Children(parent: ulong): seq<Name>
      requires |ParentHash| == ParentHashLimit > 0
      reads this`ParentHash
    {
      ParentHash[Bucket(parent, ParentHashLimit)]
    }

    /** dirHash->Blocks++ */
    method CountUp(parent: ulong)
      requires Blocks.Keys == Records.Keys && parent != EOF
      modifies this`Blocks
      ensures Blocks == Counted(old(Blocks), DirectoryOf(parent), 1) && Blocks.Keys == Records.Keys
      ensures parent < 0xFFFF_FFFD ==> Tallied(old(Blocks), Blocks, parent, true)
      ensures parent == 0xFFFF_FFFD ==> Tallied(old(Blocks), Blocks, 0, true)
      ensures parent == 0xFFFF_FFFE ==> Tallied(old(Blocks), Blocks, if DeletedDirNo != 0 then DeletedDirNo else -1, true)
    {
      hide Tallied;
      CountedOnce(Blocks, DirectoryOf(parent));
      var dir := DirectoryOf(parent);
      if dir.Some? {
        assert dir.value in Blocks.Keys;
        var count: int := Blocks[dir.value];
        Blocks := Blocks[dir.value := Wrap(count + 1)];
      }
    }

    /** dirHash->Blocks-- */
    method CountDown(parent: ulong)
      requires Blocks.Keys == Records.Keys && parent != EOF
      modifies this`Blocks
      ensures Blocks == Counted(old(Blocks), LeftBy(parent), -1) && Blocks.Keys == Records.Keys
      ensures parent < 0xFFFF_FFFD ==> Tallied(old(Blocks), Blocks, parent, false)
      ensures parent == 0xFFFF_FFFD ==> Tallied(old(Blocks), Blocks, 0, false)
      ensures parent == 0xFFFF_FFFE ==> Tallied(old(Blocks), Blocks, if DeletedDirNo != 0 then DeletedDirNo else 0xFFFF_FFFE, false)
    {
      hide Tallied;
      CountedOnce(Blocks, LeftBy(parent));
      var dir := LeftBy(parent);
      if dir.Some? {
        assert dir.value in Blocks.Keys;
        var count: int := Blocks[dir.value];
        Blocks := Blocks[dir.value := Wrap(count - 1)];
      }
    }

    /** AddToParentHash: before the first sibling with a number as high; the directory counts one child more. */
    method AddToParentHash(name: Name) returns (code: ulong)
      requires Valid()
      modifies this`ParentHash, this`Blocks
      ensures Valid()
      ensures code == if name.Parent == EOF || name.NameSpace != DOS_NAME_SPACE then EOF else 0
      ensures code != 0 ==> ParentHash == old(ParentHash) && Blocks == old(Blocks)
      ensures code == 0 ==> ParentHash == old(ParentHash)[Bucket(name.Parent, ParentHashLimit) := Added(old(Children(name.Parent)), name)]
      ensures code == 0 ==> Blocks == Counted(old(Blocks), DirectoryOf(name.Parent), 1)
      ensures code == 0 && name.Parent < 0xFFFF_FFFD ==> Tallied(old(Blocks), Blocks, name.Parent, true)
      ensures code == 0 && name.Parent == 0xFFFF_FFFD ==> Tallied(old(Blocks), Blocks, 0, true)
      ensures code == 0 && name.Parent == 0xFFFF_FFFE ==> Tallied(old(Blocks), Blocks, if DeletedDirNo != 0 then DeletedDirNo else -1, true)
    {
      hide Ascending, Bucket, Added, EachOnce, Tallied, Counted, DirectoryHash.DirectoryOf;
      if name.Parent == EOF || name.NameSpace != DOS_NAME_SPACE { return EOF; }
      var value := Bucket(name.Parent, ParentHashLimit);
      var b := ParentHash[value];
      var k := FindPlace(b, name);
      AddKeepsOrder(b, name);
      AddedMembers(b, name);
      ParentHash := ParentHash[value := b[..k] + [name] + b[k..]];
      CountUp(name.Parent);
      return 0;
    }

    /** RemoveParentHash, for a record that is in the hash. */
    method RemoveParentHash(name: Name) returns (code: ulong)
      requires Valid() && name in Children(name.Parent)
      modifies this`ParentHash, this`Blocks
      ensures Valid()
      ensures code == if name.Parent == EOF then EOF else 0
      ensures code != 0 ==> ParentHash == old(ParentHash) && Blocks == old(Blocks)
      ensures code == 0 ==> ParentHash == old(ParentHash)[Bucket(name.Parent, ParentHashLimit) := Removed(old(Children(name.Parent)), name)]
      ensures code == 0 ==> Blocks == Counted(old(Blocks), LeftBy(name.Parent), -1)
      ensures code == 0 && name.Parent < 0xFFFF_FFFD ==> Tallied(old(Blocks), Blocks, name.Parent, false)
      ensures code == 0 && name.Parent == 0xFFFF_FFFD ==> Tallied(old(Blocks), Blocks, 0, false)
      ensures code == 0 && name.Parent == 0xFFFF_FFFE ==> Tallied(old(Blocks), Blocks, if DeletedDirNo != 0 then DeletedDirNo else 0xFFFF_FFFE, false)
    {
      hide Ascending, Bucket, Removed, EachOnce, Tallied, Counted, DirectoryHash.LeftBy;
      if name.Parent == EOF { return EOF; }
      var value := Bucket(name.Parent, ParentHashLimit);
      ghost var k := RemoveIsSplice(ParentHash[value], name);
      RemoveKeepsOrder(ParentHash[value], name);
      RemovedFrom(ParentHash[value], name);
      ParentHash := ParentHash[value := Removed(ParentHash[value], name)];
      CountDown(name.Parent);
      return 0;
    }

    /** The entry a lookup from `entry` finds, under the name space asked for. */
    ghost function Found(entry: ulong, ns: nat, dir: ulong): Option<Name>
      requires |ParentHash| == ParentHashLimit > 0
      reads this
    {
      match FirstFrom(Children(dir), entry, dir)
      case None => None
      case Some(n) => Some(InNameSpace(n, if n.Root in Rings then Rings[n.Root] else [], ns))
    }

    /** GetHashNameSpaceEntry: whatever the name space, the record found stands for the same root. */
    method GetHashNameSpaceEntry(entry: ulong, ns: nat, dir: ulong) returns (r: Option<Name>)
      requires Valid()
      ensures r == Found(entry, ns, dir)
      ensures r.Some? <==> FirstFrom(Children(dir), entry, dir).Some?
      ensures r.Some? ==> r.value.Root == FirstFrom(Children(dir), entry, dir).value.Root
    {
      hide Ascending, Bucket, NoDup;
      var b := ParentHash[Bucket(dir, ParentHashLimit)];
      var i := 0;
      while i < |b|
        invariant i <= |b| && FirstFrom(b[i..], entry, dir) == FirstFrom(b, entry, dir)
      {
        if ChildOf(b[i], dir) && b[i].Root >= entry {
          var n := b[i];
          var ring := if n.Root in Rings then Rings[n.Root] else [];
          if n.NameSpace == ns { return Some(n); }
          var j := 0;
          while j < |ring|
            invariant j <= |ring| && InNameSpace(n, ring[j..], ns) == InNameSpace(n, ring, ns)
          {
            if ring[j].NameSpace == ns { return Some(ring[j]); }
            j := j + 1;
          }
          return Some(n);
        }
        i := i + 1;
      }
      return None;
    }

    /** InsertNameSpaceElement: a record of another name space joins its root's ring, once, and takes over the root's parent. A root
        itself, or a record found to be its own root, is left with an empty ring. */
    method InsertNameSpaceElement(name: Name) returns (code: ulong, linked: Name)
      requires Valid()
      modifies this`Rings
      ensures Valid()
      ensures var isRoot := name.DirNo == name.Root; var known := name.Root in Records; var itself := known && Records[name.Root].id == name.id;
        && code == (if !isRoot && (!known || itself || HasRecord(old(Rings)[name.Root], name.id)) then HASH_ERROR else 0)
        && linked == (if isRoot || !known || itself then name else name.(Parent := Records[name.Root].Parent))
        && Rings == (if itself then old(Rings)[name.Root := []]
                     else if isRoot || code != 0 then old(Rings)
                     else old(Rings)[name.Root := old(Rings)[name.Root] + [linked]])
    {
      linked := name;
      var itself := name.Root in Records && Records[name.Root].id == name.id;
      if name.DirNo == name.Root {
        if itself { Rings := Rings[name.Root := []]; }
        return 0, name;
      }
      if name.Root !in Records { return HASH_ERROR, name; }
      if itself {
        Rings := Rings[name.Root := []];
        return HASH_ERROR, name;
      }
      linked := name.(Parent := Records[name.Root].Parent);
      var ring := Rings[name.Root];
      var i := 0;
      while i < |ring|
        invariant i <= |ring| && forall k :: 0 <= k < i ==> ring[k].id != name.id
      {
        if ring[i].id == name.id { return HASH_ERROR, linked; }
        i := i + 1;
      }
      Rings := Rings[name.Root := ring + [linked]];
      return 0, linked;
    }

    /** Inserted a second time, wherever its root has moved in between, a record is refused and the ring stays. */
    method InsertAgain(name: Name, parent: ulong) returns (first: ulong, second: ulong)
      requires Valid() && name.DirNo != name.Root && name.Root in Records && Records[name.Root].id != name.id
      modifies this`Rings, this`Records
      ensures Valid() && second == HASH_ERROR
      ensures first == HASH_ERROR <==> HasRecord(old(Rings)[name.Root], name.id)
      ensures Rings.Keys == old(Rings).Keys && forall root :: root in Rings && root != name.Root ==> Rings[root] == old(Rings)[root]
      ensures first == 0 ==> |Rings[name.Root]| == |old(Rings)[name.Root]| + 1
    {
      hide Ascending, Bucket;
      var linked: Name;
      first, linked := InsertNameSpaceElement(name);
      assert first == 0 ==> Rings[name.Root][|Rings[name.Root]| - 1] in Rings[name.Root];
      Records := Records[name.Root := Records[name.Root].(Parent := parent)];
      second, linked := InsertNameSpaceElement(name);
    }

    /** get_subdirectory_record: children of the deleted-files directory are kept under a number of their own. */
    function HashedUnder(dir: ulong): ulong
      reads this`DeletedDirNo
    {
      if DeletedDirNo != 0 && dir == DeletedDirNo then DELETED_DIRECTORY else dir
    }

    /** The record stands somewhere in the hash. */
    ghost predicate InHash(n: Name)
      reads this`ParentHash
    {
      exists v :: 0 <= v < |ParentHash| && n in ParentHash[v]
    }

    /** Some live record of the hash has this parent and this root. */
    ghost predicate Owns(parent: ulong, root: ulong)
      reads this`ParentHash
    {
      exists n :: InHash(n) && n.Parent == parent && n.Root == root != EOF
    }

    /** Every live record names itself as root. */
    ghost predicate SelfRooted()
      reads this`ParentHash
    {
      forall n :: InHash(n) && n.Root != EOF ==> n.Root == n.DirNo
    }

    /** A parent's records are all in its bucket. */
    lemma InItsBucket(n: Name)
      requires Valid()
      ensures InHash(n) <==> n in Children(n.Parent)
    {
      hide Ascending, Bucket, EachOnce;
      if InHash(n) {
        var v :| 0 <= v < |ParentHash| && n in ParentHash[v];
        var i :| 0 <= i < |ParentHash[v]| && ParentHash[v][i] == n;
      }
    }

    lemma OwnsPresent(parent: ulong, root: ulong)
      requires Valid()
      ensures Owns(parent, root) <==> Present(Children(parent), parent, root)
    {
      hide Ascending, Bucket, EachOnce, DirectoryHash.InHash, DirectoryHash.Valid;
      if Owns(parent, root) {
        var n :| InHash(n) && n.Parent == parent && n.Root == root != EOF;
        InItsBucket(n);
      }
      if Present(Children(parent), parent, root) {
        var n :| n in Children(parent) && ChildOf(n, parent) && n.Root == root;
        InItsBucket(n);
      }
    }

    /** The roots are children by the records themselves, and from `from` on all of them if complete: an ordinary directory's children
        name it as parent, those of the deleted-files directory name the reserved number. */
    ghost predicate Lists(dir: ulong, from: ulong, roots: seq<ulong>, complete: bool)
      reads this`ParentHash, this`DeletedDirNo
    {
      && (dir == DeletedDirNo != 0 ==> forall root :: root in roots ==> Owns(0xFFFF_FFFE, root))
      && (dir != DeletedDirNo || dir == 0 ==> forall root :: root in roots ==> Owns(dir, root))
      && (complete && dir == DeletedDirNo != 0 ==> forall root: ulong :: root >= from && Owns(0xFFFF_FFFE, root) ==> root in roots)
      && (complete && (dir != DeletedDirNo || dir == 0) ==> forall root: ulong :: root >= from && Owns(dir, root) ==> root in roots)
    }

    lemma ListedAreOwned(dir: ulong, from: ulong, n: nat)
      requires Valid()
      ensures var all := Listing(Children(HashedUnder(dir)), from, HashedUnder(dir)); Lists(dir, from, Upto(all, n), SelfRooted() && |all| <= n)
    {
      hide Ascending, Bucket, EachOnce, Listing, Present, DirectoryHash.Owns, DirectoryHash.SelfRooted, Rooted;
      var under := HashedUnder(dir);
      ListingIsThere(Children(under), from, under);
      forall root: ulong ensures Owns(under, root) <==> Present(Children(under), under, root) { OwnsPresent(under, root); }
      if SelfRooted() {
        BucketRooted(under);
        ListingIsExact(Children(under), from, under);
      }
    }

    lemma BucketRooted(parent: ulong)
      requires Valid() && SelfRooted()
      ensures Ascending(Children(parent)) && Rooted(Children(parent))
    {
      hide Ascending, EachOnce, Bucket;
      forall i | 0 <= i < |Children(parent)| && Live(Children(parent)[i]) ensures Children(parent)[i].Root == Children(parent)[i].DirNo {
        assert Children(parent)[i] in ParentHash[Bucket(parent, ParentHashLimit)];
        assert InHash(Children(parent)[i]);
      }
    }

    /** What is left to list from a file position on. */
    ghost function Remaining(pos: nat, dir: ulong): seq<ulong>
      requires |ParentHash| == ParentHashLimit > 0
      reads this
    {
      Listing(Children(HashedUnder(dir)), Wrap(pos - 2), HashedUnder(dir))
    }

    /** nwfs_dir_readdir, with room for so many entries: first the two dots, then children from where the position stands. */
    method Readdir(dir: ulong, pos0: nat, ns: nat, room: nat) returns (pos: nat, dots: nat, roots: seq<ulong>)
      requires Valid()
      ensures dots == if room < DotsLeft(pos0) then room else DotsLeft(pos0)
      ensures room < DotsLeft(pos0) ==> pos == pos0 + dots && roots == []
      ensures room >= DotsLeft(pos0) ==> var start := pos0 + DotsLeft(pos0);
        roots == Upto(Remaining(start, dir), room - dots) && pos == if roots == [] then start else Cookie(roots[|roots| - 1])
      ensures room >= DotsLeft(pos0) ==> Lists(dir, Resumed(pos0), roots, SelfRooted() && |roots| < room - dots)
    {
      hide Ascending, Bucket, NoDup, Listing, DirectoryHash.Lists, DirectoryHash.SelfRooted;
      pos, dots, roots := pos0, 0, [];
      var i := Wrap(pos);
      if i == 0 {
        if room == 0 { return; }
        pos, dots := pos + 1, 1;
      }
      if i <= 1 {
        if room == dots { return; }
        pos, dots := pos + 1, dots + 1;
      }
      pos, roots := ReadChildren(HashedUnder(dir), pos, ns, room - dots);
      ListedAreOwned(dir, Resumed(pos0), room - dots);
      ListsLess(dir, Resumed(pos0), roots, SelfRooted());
    }

    lemma ListsLess(dir: ulong, from: ulong, roots: seq<ulong>, complete: bool)
      ensures Lists(dir, from, roots, complete) ==> Lists(dir, from, roots, false)
    {
    }

    /** Two calls with room for the whole of a directory that stays: the second lists nothing more exactly if the last number is
        below 0xFFFFFFFD. Otherwise it lists everything again, dots included, and so will every call after it. */
    method CallAgain(dir: ulong, ns: nat, room: nat) returns (roots: seq<ulong>, again: seq<ulong>, dots: nat, pos: nat)
      requires Valid() && Remaining(2, dir) != [] && room >= |Remaining(2, dir)| + 2
      ensures roots == Remaining(2, dir)
      ensures roots[|roots| - 1] < ROOT_NODE ==> again == [] && dots == 0
      ensures roots[|roots| - 1] >= ROOT_NODE ==> again == roots && dots > 0
      ensures pos == Cookie(roots[|roots| - 1]) && Lists(dir, 0, roots, SelfRooted())
    {
      hide Ascending, Bucket, NoDup, Listing, Cookie, Wrap, DirectoryHash.Valid, DirectoryHash.Lists, DirectoryHash.SelfRooted;
      ListedAreOwned(dir, 0, room);
      FirstCall();
      ghost var b, under := Children(HashedUnder(dir)), HashedUnder(dir);
      pos, dots, roots := Readdir(dir, 0, ns, room);
      ListingResumes(b, 0, under, |roots|);
      CookieResumes(roots[|roots| - 1]);
      pos, dots, again := Readdir(dir, pos, ns, room);
    }

    /** One change, if it can be made: a record to delete must be there. */
    method Make(c: Change)
      requires Valid()
      modifies this`ParentHash, this`Blocks
      ensures Valid() && forall v :: 0 <= v < ParentHashLimit ==> ParentHash[v] == ChangedBy(old(ParentHash)[v], ParentHashLimit, v, c)
    {
      hide Ascending, Bucket, NoDup, Added, Removed;
      var code: ulong;
      match c {
        case Insert(n) => code := AddToParentHash(n);
        case Delete(n) =>
          if n in ParentHash[Bucket(n.Parent, ParentHashLimit)] { code := RemoveParentHash(n); }
      }
    }

    method MakeAll(cs: seq<Change>)
      requires Valid()
      modifies this`ParentHash, this`Blocks
      ensures Valid() && forall v :: 0 <= v < ParentHashLimit ==> ParentHash[v] == Changed(old(ParentHash)[v], ParentHashLimit, v, cs)
    {
      hide Ascending, Bucket, NoDup, ChangedBy;
      var i := 0;
      while i < |cs|
        invariant Valid() && i <= |cs|
        invariant forall v :: 0 <= v < ParentHashLimit ==>
          Changed(old(ParentHash)[v], ParentHashLimit, v, cs) == Changed(ParentHash[v], ParentHashLimit, v, cs[i..])
      {
        assert cs[i..][0] == cs[i] && cs[i..][1..] == cs[i + 1..];
        Make(cs[i]);
        i := i + 1;
      }
    }

    /** A first call with room for the two dots only. */
    method ReadDots(dir: ulong, ns: nat) returns (pos: nat)
      requires Valid()
      ensures DotsLeft(pos) == 0 && Resumed(pos) == 0
    {
      hide Ascending, Listing;
      FirstCall();
      var dots: nat, roots: seq<ulong>;
      pos, dots, roots := Readdir(dir, 0, ns, 2);
    }

    /** One call, after what others changed. */
    method CallOnce(dir: ulong, start: nat, ns: nat, call: Call, ghost entry: ulong) returns (pos: nat, got: seq<ulong>)
      requires Valid() && DotsLeft(start) == 0 && Resumed(start) == entry && Tidy(Children(HashedUnder(dir))) && SaneChanges(call.changes)
      modifies this`ParentHash, this`Blocks
      ensures Valid() && |ParentHash| == ParentHashLimit > 0 && Tidy(Children(HashedUnder(dir)))
      ensures Children(HashedUnder(dir)) == Changed(old(Children(HashedUnder(dir))), ParentHashLimit, Bucket(HashedUnder(dir), ParentHashLimit), call.changes)
      ensures got == Upto(Listing(Children(HashedUnder(dir)), entry, HashedUnder(dir)), call.room)
      ensures DotsLeft(pos) == 0 && Resumed(pos) == After(got, entry)
    {
      hide Ascending, Bucket, NoDup, Sane, SaneChanges, Changed, Listing, Wrap, Tidy, DotsLeft, Cookie;
      var under := HashedUnder(dir);
      ChangesKeepTidy(Children(under), ParentHashLimit, Bucket(under, ParentHashLimit), call.changes);
      MakeAll(call.changes);
      var dots: nat;
      pos, dots, got := Readdir(dir, start, ns, call.room);
      SaneResumes(Children(under), entry, under, got);
    }

    /** The calls one after the other, each resumed from the position the last one left. */
    method RunCalls(dir: ulong, ns: nat, calls: seq<Call>) returns (roots: seq<ulong>, finished: bool)
      requires Valid() && Tidy(Children(HashedUnder(dir))) && forall i :: 0 <= i < |calls| ==> SaneChanges(calls[i].changes)
      modifies this`ParentHash, this`Blocks
      ensures Valid() && roots == RootsOf(old(Children(HashedUnder(dir))), ParentHashLimit, calls, 0, HashedUnder(dir))
      ensures finished ==> Finishes(old(Children(HashedUnder(dir))), ParentHashLimit, calls, 0, HashedUnder(dir))
    {
      hide Ascending, Bucket, NoDup, Sane, SaneChanges, Changed, Listing, After, Wrap, Tidy, DirectoryHash.Valid, RootsOf, Finishes, Upto, DotsLeft, Resumed;
      ghost var under, limit, b := HashedUnder(dir), ParentHashLimit, Children(HashedUnder(dir));
      RunEnds(calls, under);
      assert calls[0..] == calls && calls[|calls|..] == [];
      finished, roots := false, [];
      var pos := ReadDots(dir, ns);
      var got: seq<ulong> := [];
      var k := 0;
      ghost var entry: ulong := 0;
      while k < |calls| && !finished
        invariant Valid() && k <= |calls| && DotsLeft(pos) == 0 && Resumed(pos) == entry && Tidy(Children(under))
        invariant RootsOf(b, limit, calls, 0, under) == roots + if finished then [] else RootsOf(Children(under), limit, calls[k..], entry, under)
        invariant finished ==> Finishes(b, limit, calls, 0, under)
        invariant !finished && Finishes(Children(under), limit, calls[k..], entry, under) ==> Finishes(b, limit, calls, 0, under)
        decreases |calls| - k
      {
        RunStep(Children(under), limit, calls, k, entry, under);
        pos, got := CallOnce(dir, pos, ns, calls[k], entry);
        finished := got == [] && calls[k].room > 0;
        entry := After(got, entry);
        roots := roots + got;
        k := k + 1;
      }
    }

    /** A directory read call by call while records are added and removed in between: what the calls list, one after the other, is
        the report of their lookups; if a call finds nothing more, every child that was there at every lookup is listed, and once. */
    method Enumerate(dir: ulong, ns: nat, calls: seq<Call>) returns (roots: seq<ulong>, finished: bool)
      requires Valid() && Tidy(Children(HashedUnder(dir))) && forall i :: 0 <= i < |calls| ==> SaneChanges(calls[i].changes)
      modifies this`ParentHash, this`Blocks
      ensures Valid()
      ensures var under := HashedUnder(dir); var visits := Lookups(old(Children(HashedUnder(dir))), ParentHashLimit, calls, 0, under);
        && roots == Reported(visits, 0, under) && GoodVisits(visits) && (finished ==> Ends(visits, 0, under))
        && (finished ==> NoDup(roots) && forall root: ulong :: (forall i :: 0 <= i < |visits| ==> Present(visits[i].bucket, under, root)) ==> root in roots)
      ensures dir == DeletedDirNo != 0 ==> Enumerated(calls, old(Everything()), 0xFFFF_FFFE, roots, finished)
      ensures dir != DeletedDirNo || dir == 0 ==> Enumerated(calls, old(Everything()), dir, roots, finished)
    {
      hide *;
      ghost var under, b := HashedUnder(dir), Children(HashedUnder(dir));
      RunReports(b, ParentHashLimit, calls, 0, under);
      EnumeratesRecords(calls, under);
      UnderWhom(dir);
      roots, finished := RunCalls(dir, ns, calls);
      if finished { EnumerationIsExact(Lookups(b, ParentHashLimit, calls, 0, under), under); }
      EnumeratedLess(calls, old(Everything()), under, roots, finished);
    }

    lemma UnderWhom(dir: ulong)
      ensures HashedUnder(dir) == if dir == DeletedDirNo != 0 then 0xFFFF_FFFE else dir
    {
    }

    /** All the records of the hash. */
    ghost function Everything(): (r: set<Name>)
      reads this`ParentHash
      ensures forall n :: n in r <==> InHash(n)
    {
      set v, i | 0 <= v < |ParentHash| && 0 <= i < |ParentHash[v]| :: ParentHash[v][i]
    }

    lemma EnumeratesRecords(calls: seq<Call>, parent: ulong)
      requires Valid()
      ensures var visits := Lookups(Children(parent), ParentHashLimit, calls, 0, parent);
        && Enumerated(calls, Everything(), parent, Reported(visits, 0, parent), false)
        && (Ends(visits, 0, parent) && GoodVisits(visits) ==> Enumerated(calls, Everything(), parent, Reported(visits, 0, parent), true))
    {
      hide Ascending, Bucket, EachOnce, Lookups, DirectoryHash.Valid, DirectoryHash.InHash, Inserted, NeverDeleted, Reported, Ends, GoodVisits;
      var b := Children(parent);
      var visits := Lookups(b, ParentHashLimit, calls, 0, parent);
      var roots := Reported(visits, 0, parent);
      ReportsWereThere(visits, 0, parent);
      forall root | root in roots ensures exists n :: (n in Everything() || Inserted(calls, n)) && n.Parent == parent && n.Root == root {
        var i :| 0 <= i < |visits| && visits[i].taken && Present(visits[i].bucket, parent, root);
        var n :| n in visits[i].bucket && ChildOf(n, parent) && n.Root == root;
        LookupsBring(b, ParentHashLimit, calls, 0, parent, i, n);
        InItsBucket(n);
      }
      if Ends(visits, 0, parent) && GoodVisits(visits) {
        forall n | n in Everything() && n.Parent == parent && n.Root != EOF && NeverDeleted(calls, n) ensures n.Root in roots {
          InItsBucket(n);
          LookupsHold(b, ParentHashLimit, calls, 0, parent, n);
          assert ChildOf(n, parent);
          PersistentIsReported(visits, 0, parent, n.Root);
        }
      }
    }

    /** The loop of nwfs_dir_readdir. */
    method ReadChildren(parent: ulong, start: nat, ns: nat, room: nat) returns (pos: nat, roots: seq<ulong>)
      requires Valid() && start >= 2
      ensures roots == Upto(Listing(Children(parent), Wrap(start - 2), parent), room)
      ensures pos == if roots == [] then start else Cookie(roots[|roots| - 1])
    {
      hide Ascending, Bucket, NoDup, Listing, Wrap, Cookie, FirstFrom, Upto, InNameSpace, Live, ChildOf;
      pos, roots := start, [];
      ghost var b, left := Children(parent), Listing(Children(parent), Wrap(start - 2), parent);
      ghost var all := left;
      while true
        invariant pos >= 1 && |roots| <= room && all == roots + left && left == Listing(b, Wrap(pos - 2), parent)
        invariant pos == if roots == [] then start else Cookie(roots[|roots| - 1])
        decreases room - |roots|
      {
        var hash := GetHashNameSpaceEntry(Wrap(pos - 2), ns, parent);
        ListingStep(b, Wrap(pos - 2), parent);
        if hash == None || |roots| == room {
          UptoSplit(roots, left, room);
          return;
        }
        SplitMoves(roots, left);
        roots := roots + [hash.value.Root];
        pos := Cookie(hash.value.Root);
        left := left[1..];
      }
    }
  }

  /** switch (i): the position is read into 32 bits to see which dots are still to come. */
  function DotsLeft(pos: nat): nat {
    if Wrap(pos) >= 2 then 0 else 2 - Wrap(pos)
  }

  /** Where a call at this position looks for children first. */
  function Resumed(pos: nat): ulong {
    Wrap(pos + DotsLeft(pos) - 2)
  }

  lemma FirstCall()
    ensures DotsLeft(0) == 2 && Resumed(0) == 0 && DotsLeft(2) == 0 && Resumed(2) == 0
  {
  }

  /** The cookie of a child is where the next call goes on exactly if its number is below 0xFFFFFFFD; else the next call starts over. */
  lemma CookieResumes(root: ulong)
    requires root != EOF
    ensures DotsLeft(Cookie(root)) == 0 <==> root < ROOT_NODE
    ensures Resumed(Cookie(root)) == (if root < ROOT_NODE then root + 1 else 0)
  {
  }

  /** For a whole call: what the next one lists is the rest exactly if the last number was below 0xFFFFFFFD. */
  lemma RestIsListed(b: seq<Name>, entry: ulong, dir: ulong, got: seq<ulong>)
    requires Ascending(b) && Rooted(b) && got != [] && got <= Listing(b, entry, dir)
    ensures Listing(b, Resumed(Cookie(got[|got| - 1])), dir) == Listing(b, entry, dir)[|got|..] <==> got[|got| - 1] < ROOT_NODE
  {
    hide Listing, Wrap, Ascending, Rooted, Cookie, DotsLeft, Resumed;
    var all, last := Listing(b, entry, dir), got[|got| - 1];
    ListingResumes(b, entry, dir, |got|);
    CookieResumes(last);
    if last >= ROOT_NODE {
      ListingIsExact(b, entry, dir);
      ListingIsExact(b, 0, dir);
      assert last in all && last in Listing(b, 0, dir);
      assert last !in all[|got|..];
    }
  }

  /** Both numbers that do not resume: one gets the cookie of the second dot, the other one past 32 bits, which is read as 0. */
  lemma CookieOfHighest()
    ensures Cookie(DELETED_DIRECTORY) == 1 && DotsLeft(1) == 1 && Resumed(1) == 0
    ensures Cookie(ROOT_NODE) == TWO_TO_THE_32 && DotsLeft(TWO_TO_THE_32) == 2 && Resumed(TWO_TO_THE_32) == 0
  {
  }

  lemma SaneResumes(b: seq<Name>, entry: ulong, dir: ulong, got: seq<ulong>)
    requires Tidy(b) && got <= Listing(b, entry, dir)
    ensures got != [] ==> DotsLeft(Cookie(got[|got| - 1])) == 0 && Resumed(Cookie(got[|got| - 1])) == After(got, entry)
  {
    hide Listing, Wrap, Ascending, Tidy, DotsLeft, Resumed, Cookie;
    if got != [] {
      TidyIsGood(b);
      ListingIsExact(b, entry, dir);
      var last := got[|got| - 1];
      assert last in Listing(b, entry, dir);
      PresentIsSane(b, dir, last);
      CookieResumes(last);
      Successor(last);
    }
  }

  lemma PresentIsSane(b: seq<Name>, dir: ulong, root: ulong)
    requires Tidy(b) && Present(b, dir, root)
    ensures root < ROOT_NODE
  {
    hide Ascending;
  }

  /** filp->f_pos = hash->Root + 2, then one more */
  function Cookie(root: ulong): (pos: nat)
    ensures root != EOF ==> pos >= 1 && Wrap(pos - 2) == root + 1
  {
    Wrap(root + 2) + 1
  }

  lemma UptoSplit(front: seq<ulong>, left: seq<ulong>, n: nat)
    requires |front| <= n && (left == [] || |front| == n)
    ensures front == Upto(front + left, n)
  {
    if left == [] { assert front + left == front; } else { assert (front + left)[..n] == front; }
  }

  lemma SplitMoves(front: seq<ulong>, left: seq<ulong>)
    ensures left != [] ==> front + left == front + [left[0]] + left[1..]
  {
  }

  function Upto(s: seq<ulong>, n: nat): seq<ulong> {
    if n < |s| then s[..n] else s
  }

  function Counted(blocks: map<ulong, ulong>, dir: Option<ulong>, change: int): map<ulong, ulong> {
    if dir.Some? && dir.value in blocks then blocks[dir.value := Wrap(blocks[dir.value] + change)] else blocks
  }

  /** One more, or one less, for record dir if it is there, in 32 bits; nothing else changes. */
  ghost predicate Tallied(was: map<ulong, ulong>, now: map<ulong, ulong>, dir: int, up: bool) {
    && now.Keys == was.Keys && (forall d: ulong :: d in was && d != dir ==> now[d] == was[d])
    && forall d: ulong :: d in was && d == dir ==>
      if up then now[d] == (if was[d] == 0xFFFF_FFFF then 0 else was[d] + 1) else now[d] == (if was[d] == 0 then 0xFFFF_FFFF else was[d] - 1)
  }

  lemma CountedOnce(was: map<ulong, ulong>, dir: Option<ulong>)
    ensures var d: int := if dir.Some? then dir.value else -1; Tallied(was, Counted(was, dir, 1), d, true) && Tallied(was, Counted(was, dir, -1), d, false)
    ensures forall d: int, up :: d !in was ==> Tallied(was, was, d, up)
  {
  }

  /** The walk of AddToParentHash down the bucket. */
  method FindPlace(b: seq<Name>, name: Name) returns (k: nat)
    ensures k == Place(b, name) && b[..k] + [name] + b[k..] == Added(b, name)
  {
    k := 0;
    while k < |b| && (b[k].Parent != name.Parent || b[k].DirNo < name.DirNo)
      invariant k <= |b| && Place(b, name) == k + Place(b[k..], name)
    {
      assert b[k..][1..] == b[k + 1..];
      k := k + 1;
    }
  }

  lemma AddedMembers(b: seq<Name>, name: Name)
    ensures forall i :: 0 <= i < |Added(b, name)| ==> Added(b, name)[i] in b || Added(b, name)[i] == name
  {
  }

  /** Two calls with room for a and b entries list what one call with room for both would, as long as the directory stays. */
  lemma CallsJoin(bucket: seq<Name>, entry: ulong, dir: ulong, a: nat, b: nat)
    requires a > 0 && Listing(bucket, entry, dir) != []
    ensures var first := Upto(Listing(bucket, entry, dir), a);
      && first != [] && first[|first| - 1] != EOF
      && first + Upto(Listing(bucket, first[|first| - 1] + 1, dir), b) == Upto(Listing(bucket, entry, dir), a + b)
  {
    hide Listing;
    var all := Listing(bucket, entry, dir);
    ListingResumes(bucket, entry, dir, |Upto(all, a)|);
  }

  /** An enumeration of a directory that stays as it is reports its listing. */
  lemma {:induction false} SteadyReport(visits: seq<Visit>, b: seq<Name>, entry: ulong, dir: ulong)
    requires forall i :: 0 <= i < |visits| ==> visits[i] == Visit(b, true)
    requires |visits| > |Listing(b, entry, dir)|
    ensures Reported(visits, entry, dir) == Listing(b, entry, dir) && Ends(visits, entry, dir)
    decreases visits
  {
    match FirstFrom(b, entry, dir)
    case None =>
    case Some(n) =>
      assert forall i :: 0 <= i < |visits[1..]| ==> visits[1..][i] == visits[i + 1];
      SteadyReport(visits[1..], b, n.Root + 1, dir);
  }

  /** ... and so does taking the count back. */
  lemma CountUndone(blocks: map<ulong, ulong>, dir: Option<ulong>)
    ensures Counted(Counted(blocks, dir, 1), dir, -1) == blocks
  {
  }
}
