/** Which block goes: over every run each handle's list stands in order of last use, so the victim is the one used longest ago (lru.c). */
module LruRecency {
  import opened Words
  import opened LruStates
  import opened LruProtocol

  // ---- lists in descending order ---------------------------------------------

  /** Each element's age is above those of the elements behind it. */
  ghost predicate Descending(s: seq<Ptr>, age: map<Ptr, int>) {
    && (forall i :: 0 <= i < |s| ==> s[i] in age)
    && forall i, j :: 0 <= i < j < |s| ==> age[s[i]] > age[s[j]]
  }

  /** Without takes one element out and leaves the others in their order. */
  lemma {:induction false} WithoutIsSplice(s: seq<Ptr>, x: Ptr) returns (k: nat)
    requires x in s
    ensures k < |s| && s[k] == x && Without(s, x) == s[..k] + s[k + 1..]
  {
    if s[0] == x {
      k := 0;
    } else {
      var rest := s[1..];
      var m := WithoutIsSplice(rest, x);
      k := m + 1;
      WithoutStep(s, x);
      hide Without;
      assert s[..k] == [s[0]] + rest[..m];
      assert s[k + 1..] == rest[m + 1..];
    }
  }

  lemma WithoutStep(s: seq<Ptr>, x: Ptr)
    requires s != [] && s[0] != x
    ensures Without(s, x) == [s[0]] + Without(s[1..], x)
  {
  }

  lemma {:induction false} WithoutNothing(s: seq<Ptr>, x: Ptr)
    requires x !in s
    ensures Without(s, x) == s
  {
    if s != [] {
      WithoutStep(s, x);
      WithoutNothing(s[1..], x);
    }
  }

  /** p is now first, the others in their order. */
  ghost predicate MovedFirst(was: seq<Ptr>, now: seq<Ptr>, p: Ptr) {
    exists k :: 0 <= k < |was| && was[k] == p && now == [p] + (was[..k] + was[k + 1..])
  }

  ghost predicate MovedLast(was: seq<Ptr>, now: seq<Ptr>, p: Ptr) {
    exists k :: 0 <= k < |was| && was[k] == p && now == was[..k] + was[k + 1..] + [p]
  }

  /** Only list g differs: p has moved to its top or to its tail. */
  ghost predicate ListsMoved(was: seq<seq<Ptr>>, now: seq<seq<Ptr>>, g: nat, p: Ptr, top: bool) {
    && |now| == |was| && g < |was| && (forall x :: 0 <= x < |was| && x != g ==> now[x] == was[x])
    && if top then MovedFirst(was[g], now[g], p) else MovedLast(was[g], now[g], p)
  }

  /** Requeueing moves the element to the top of its list for its own handle, to the tail for another. */
  lemma RequeueMoves(lim: Limits, c: Cache, d: Cache, h: nat, p: Ptr)
    requires Placed(lim, c, {}, {}) && OnActive(c, {}, p) && d.lists == c.lists && d.local == c.local
    requires p in d.elems && d.elems[p].handle == c.elems[p].handle
    ensures c.elems[p].handle < |c.lists| == |c.local|
    ensures ListsMoved(c.lists, Requeue(d, h, p).lists, c.elems[p].handle, p, c.elems[p].handle == h)
  {
    hide Without, BucketIs, Bucket, NoDup;
    var g := c.elems[p].handle;
    assert ListIs(lim, c, {}, g);
    var k := WithoutIsSplice(c.lists[g], p);
  }

  /** Below both limits a free element is taken, or with memory a new one, and nothing is given up; otherwise the victim. */
  lemma RoomFirst(lim: Limits, c: Cache, h: nat, grown: Option<Ptr>)
    requires Placed(lim, c, {}, {}) && h < |c.lists| && (grown.Some? ==> grown.value !in c.elems)
    ensures |c.local| == |c.lists| == |lim.max|
    ensures var (d, got) := GetAvailable(lim, c, h, grown);
      if c.local[h] < lim.max[h] && c.blocks < lim.total && (c.free != [] || grown.Some?) then
        && got == (if c.free != [] then Some(c.free[0]) else grown) && d.lists == c.lists && d.hash == c.hash
        && d.blocks == c.blocks + (if c.free != [] then 0 else 1)
        && forall q :: q in c.active ==> q in d.active && (q in c.elems ==> q in d.elems && d.elems[q] == c.elems[q])
      else
        got == LastEvictable(c, c.lists[h])
  {
    hide ListIs, BucketIs, Bucket, NoDup, LastEvictable;
    if c.free != [] { assert c.free[0] in c.free; }
  }

  lemma DescendingWithout(s: seq<Ptr>, x: Ptr, age: map<Ptr, int>)
    requires Descending(s, age)
    ensures Descending(Without(s, x), age) && forall p :: p in Without(s, x) ==> p in s
  {
    hide Without;
    if x !in s {
      WithoutNothing(s, x);
    } else {
      var k := WithoutIsSplice(s, x);
      var r := s[..k] + s[k + 1..];
      assert forall i :: 0 <= i < |r| ==> r[i] == if i < k then s[i] else s[i + 1];
    }
  }

  lemma DescendingPut(s: seq<Ptr>, p: Ptr, age: map<Ptr, int>, a: int)
    requires Descending(s, age) && p !in s
    ensures Descending(s, age[p := a])
    ensures (forall q :: q in s ==> age[q] < a) ==> Descending([p] + s, age[p := a])
    ensures (forall q :: q in s ==> age[q] > a) ==> Descending(s + [p], age[p := a])
  {
    assert forall i :: 0 <= i < |s| ==> s[i] in s && s[i] != p;
  }

  // ---- ages over a run -------------------------------------------------------

  /** The age of every element after a step: the number `now` of the step if it fills or releases the element for its own handle, and -now
      if another handle releases it. */
  ghost function AgesAfter(lim: Limits, w: World, step: Step, age: map<Ptr, int>, now: int): map<Ptr, int>
    requires Placed(lim, w.c, {}, {}) && Enabled(lim, w, step)
  {
    match step
    case FillStart(h, key, grown) =>
      var got := GetAvailable(lim, w.c, h, grown).1;
      if got == None then age else age[got.value := now]
    case ReleaseClean(h, p) => age[p := if w.c.elems[p].handle == h then now else -now]
    case ReleaseDirty(h, p) => age[p := if w.c.elems[p].handle == h then now else -now]
    case _ => age
  }

  /** Every list is in descending order, with ages of steps before `now`. */
  ghost predicate InOrder(c: Cache, age: map<Ptr, int>, now: int) {
    forall h :: 0 <= h < |c.lists| ==> Descending(c.lists[h], age) && forall p :: p in c.lists[h] ==> p in age && -now < age[p] < now
  }

  /** From w, with these ages, the steps lead to v with those. */
  ghost predicate Ages(lim: Limits, w: World, age: map<Ptr, int>, now: int, steps: seq<Step>, v: World, last: map<Ptr, int>)
    decreases steps
  {
    if steps == [] then w == v && age == last
    else
      && Placed(lim, w.c, {}, {}) && Enabled(lim, w, steps[0])
      && Ages(lim, Next(lim, w, steps[0]), AgesAfter(lim, w, steps[0], age, now), now + 1, steps[1..], v, last)
  }

  /** Where GetAvailableLRU takes the element from, as the handle lists see it. */
  lemma AvailableLists(lim: Limits, c: Cache, h: nat, grown: Option<Ptr>)
    requires Placed(lim, c, {}, {}) && h < |c.lists| && (grown.Some? ==> grown.value !in c.elems)
    ensures var (d, got) := GetAvailable(lim, c, h, grown); got.Some? ==>
      && |d.lists| == |c.lists| && (forall g :: 0 <= g < |c.lists| ==> d.lists[g] == c.lists[g] || d.lists[g] == Without(c.lists[g], got.value))
      && forall g :: 0 <= g < |c.lists| ==> got.value !in d.lists[g]
  {
    hide Bucket, BucketIs, NoDup, Without, Evictable;
    var (d, got) := GetAvailable(lim, c, h, grown);
    if got.Some? {
      var p := got.value;
      assert ListIs(lim, c, {}, h);
      forall g | 0 <= g < |c.lists| ensures p !in d.lists[g] {
        assert ListIs(lim, c, {}, g);
        if c.free != [] { assert c.free[0] in c.free; }
        WithoutLess(c.lists[g], p);
      }
    }
  }

  lemma WithoutLess(s: seq<Ptr>, x: Ptr)
    ensures NoDup(s) ==> x !in Without(s, x)
  {
  }

  lemma FillKeepsOrder(lim: Limits, w: World, h: nat, key: Key, grown: Option<Ptr>, age: map<Ptr, int>, now: int)
    requires Inv(lim, w) && Enabled(lim, w, FillStart(h, key, grown)) && InOrder(w.c, age, now) && now > 0
    ensures var step := FillStart(h, key, grown); InOrder(Next(lim, w, step).c, AgesAfter(lim, w, step, age, now), now + 1)
  {
    hide GetAvailable, SearchHash, Bucket, Without, Sane, Descending, Placed, InOrder;
    AvailablePlaced(lim, w.c, h, grown);
    AvailableLists(lim, w.c, h, grown);
    FillingStaysSane(lim, w, h, key, grown);
    var (d, got) := GetAvailable(lim, w.c, h, grown);
    if got == None {
      LaterInOrder(w.c, age, now);
    } else {
      TopInOrder(w.c, d, Next(lim, w, FillStart(h, key, grown)).c, h, got.value, age, now);
    }
  }

  lemma LaterInOrder(c: Cache, age: map<Ptr, int>, now: int)
    requires InOrder(c, age, now)
    ensures InOrder(c, age, now + 1)
  {
    hide Descending;
  }

  /** p put at the top of list h, from where it was before. */
  lemma TopInOrder(c: Cache, d: Cache, f: Cache, h: nat, p: Ptr, age: map<Ptr, int>, now: int)
    requires InOrder(c, age, now) && now > 0 && h < |d.lists| == |c.lists| && f.lists == d.lists[h := [p] + d.lists[h]]
    requires forall g :: 0 <= g < |c.lists| ==> p !in d.lists[g] && (d.lists[g] == c.lists[g] || d.lists[g] == Without(c.lists[g], p))
    ensures InOrder(f, age[p := now], now + 1)
  {
    hide Without, Descending;
    forall g | 0 <= g < |c.lists|
      ensures Descending(f.lists[g], age[p := now]) && forall q :: q in f.lists[g] ==> q in age[p := now] && -now - 1 < age[p := now][q] < now + 1
    {
      DescendingWithout(c.lists[g], p, age);
      DescendingPut(d.lists[g], p, age, now);
    }
  }

  lemma ReleaseKeepsOrder(lim: Limits, w: World, c: Cache, h: nat, p: Ptr, age: map<Ptr, int>, now: int)
    requires Placed(lim, w.c, {}, {}) && InOrder(w.c, age, now) && Here(w, p) && now > 0
    requires c.lists == w.c.lists && c.local == w.c.local && p in c.elems && c.elems[p].handle == w.c.elems[p].handle < |c.lists| == |c.local|
    ensures InOrder(Requeue(c, h, p), age[p := if w.c.elems[p].handle == h then now else -now], now + 1)
  {
    hide Bucket, Without, Descending, BucketIs, NoDup;
    var e := w.c.elems[p].handle;
    var a := if e == h then now else -now;
    var d := Requeue(c, h, p);
    forall g | 0 <= g < |w.c.lists|
      ensures Descending(d.lists[g], age[p := a]) && forall q :: q in d.lists[g] ==> q in age[p := a] && -now - 1 < age[p := a][q] < now + 1
    {
      assert ListIs(lim, w.c, {}, g);
      var s := if g == e then Without(w.c.lists[g], p) else w.c.lists[g];
      DescendingWithout(w.c.lists[g], p, age);
      WithoutLess(w.c.lists[g], p);
      DescendingPut(s, p, age, a);
    }
  }

  lemma ShelvingKeepsOrder(w: World, p: Ptr, age: map<Ptr, int>, now: int)
    requires InOrder(w.c, age, now) && Here(w, p) && w.c.elems[p].handle < |w.c.lists| == |w.c.local| && |w.c.hash| > 0
    ensures InOrder(Shelve(Evict(w.c, p), p), age, now + 1)
  {
    hide Bucket, Without, Descending;
    forall g | 0 <= g < |w.c.lists| ensures Descending(Without(w.c.lists[g], p), age) && forall q :: q in Without(w.c.lists[g], p) ==> q in w.c.lists[g] {
      DescendingWithout(w.c.lists[g], p, age);
    }
  }

  lemma StepKeepsOrder(lim: Limits, w: World, step: Step, age: map<Ptr, int>, now: int)
    requires Inv(lim, w) && Enabled(lim, w, step) && InOrder(w.c, age, now) && now > 0
    ensures InOrder(Next(lim, w, step).c, AgesAfter(lim, w, step, age, now), now + 1)
  {
    hide Placed, Sane, SearchHash, GetAvailable, Filling, Descending, Requeue, Shelve, Evict;
    match step {
      case FillStart(h, key, grown) => FillKeepsOrder(lim, w, h, key, grown, age, now);
      case ReleaseClean(h, p) =>
        OnItsHandle(lim, w.c, p);
        ReleaseKeepsOrder(lim, w, Put(w.c, p, Released(w.c.elems[p])), h, p, age, now);
      case ReleaseDirty(h, p) =>
        OnItsHandle(lim, w.c, p);
        var e := w.c.elems[p];
        ReleaseKeepsOrder(lim, w, Put(Count(w.c, e, Dirtied(e)), p, Dirtied(e)), h, p, age, now);
      case FillDone(p, fill, ok, hold) =>
        if fill && !ok {
          OnItsHandle(lim, w.c, p);
          WithoutOne(lim, w.c, p);
          ShelvingKeepsOrder(w, p, age, now);
        }
      case _ =>
    }
  }

  lemma {:induction false} RunKeepsOrder(lim: Limits, w: World, age: map<Ptr, int>, now: int, steps: seq<Step>, v: World, last: map<Ptr, int>)
    requires Inv(lim, w) && InOrder(w.c, age, now) && now > 0 && Ages(lim, w, age, now, steps, v, last)
    ensures Inv(lim, v) && InOrder(v.c, last, now + |steps|)
    decreases steps
  {
    hide Inv, Placed, Enabled, Next, InOrder, AgesAfter;
    if steps != [] {
      StepKeepsInv(lim, w, steps[0]);
      StepKeepsOrder(lim, w, steps[0], age, now);
      RunKeepsOrder(lim, Next(lim, w, steps[0]), AgesAfter(lim, w, steps[0], age, now), now + 1, steps[1..], v, last);
    }
  }

  /** After every run from an empty cache the block a handle gives up is, of those it could give up, the one of least age: blocks that other
      handles released go first, and of its own the one filled or released longest ago. */
  lemma VictimIsOldest(lim: Limits, w: World, steps: seq<Step>, v: World, age: map<Ptr, int>, h: nat)
    requires Fresh(lim, w) && Ages(lim, w, map[], 1, steps, v, age) && h < |v.c.lists|
    ensures forall p :: p in v.c.lists[h] ==> p in age && p in v.c.elems
    ensures LastEvictable(v.c, v.c.lists[h]) == None <==> forall p :: p in v.c.lists[h] ==> !Evictable(v.c.elems[p])
    ensures var got := LastEvictable(v.c, v.c.lists[h]); got.Some? ==>
      forall q :: q in v.c.lists[h] && Evictable(v.c.elems[q]) && q != got.value ==> age[got.value] < age[q]
  {
    hide Ages, InOrder, Inv, Fresh, Placed, Descending, Evictable;
    FreshInv(lim, w);
    assert InOrder(w.c, map[], 1) by { NothingYet(lim, w); }
    RunKeepsOrder(lim, w, map[], 1, steps, v, age);
    ListFits(lim, v, age, 1 + |steps|, h);
    OldestInList(v.c, v.c.lists[h], age);
  }

  lemma NothingYet(lim: Limits, w: World)
    requires Fresh(lim, w)
    ensures InOrder(w.c, map[], 1)
  {
  }

  lemma ListFits(lim: Limits, v: World, age: map<Ptr, int>, now: int, h: nat)
    requires Inv(lim, v) && InOrder(v.c, age, now) && h < |v.c.lists|
    ensures Descending(v.c.lists[h], age) && forall p :: p in v.c.lists[h] ==> p in age && p in v.c.elems
  {
    hide Sane, BucketIs, Bucket;
    assert ListIs(lim, v.c, {}, h);
  }

  lemma OldestInList(c: Cache, list: seq<Ptr>, age: map<Ptr, int>)
    requires Descending(list, age) && forall p :: p in list ==> p in age && p in c.elems
    ensures LastEvictable(c, list) == None <==> forall p :: p in list ==> !Evictable(c.elems[p])
    ensures var got := LastEvictable(c, list); got.Some? ==>
      forall q :: q in list && Evictable(c.elems[q]) && q != got.value ==> age[got.value] < age[q]
  {
    hide Evictable;
    VictimNearestTail(c, list);
    var at := VictimAt(c, list);
    forall q | q in list && Evictable(c.elems[q]) ensures at >= 0 && (q != list[at] ==> age[list[at]] < age[q]) {
      var j :| 0 <= j < |list| && list[j] == q;
    }
  }

  /** A handle whose blocks nobody else releases: the victim is the evictable block whose last fill or release is longest ago. */
  lemma OwnVictimIsOldest(lim: Limits, w: World, steps: seq<Step>, v: World, age: map<Ptr, int>, h: nat, p: Ptr, q: Ptr)
    requires Fresh(lim, w) && Ages(lim, w, map[], 1, steps, v, age) && h < |v.c.lists| && LastEvictable(v.c, v.c.lists[h]) == Some(p)
    requires q in v.c.lists[h] && q in v.c.elems && Evictable(v.c.elems[q]) && q != p && p in age && age[p] > 0
    ensures q in age && 0 < age[p] < age[q]
  {
    VictimIsOldest(lim, w, steps, v, age, h);
  }
}
