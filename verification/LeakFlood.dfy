/**
 * The mark phase of the leak checker: a worklist flood over memory words that ends with exactly
 * the least set of live objects that holds the roots and is closed under pointing into.
 */
module LeakFlood {
  import opened Collections
  import opened AddressMap
  import Partition

  const WORD: nat := 8

  /** What the profile table keeps for an allocation. */
  datatype Alloc = Alloc(bytes: nat, live: bool)

  datatype Place = MustBeOnHeap | IgnoredOnHeap | Elsewhere

  /** A stretch of memory on the worklist. */
  datatype Region = Region(ptr: nat, size: nat, place: Place)

  function AllocSize(v: Alloc): nat {
    v.bytes
  }

  /** The fixed surroundings of a flood: memory contents, pointer alignment, longest offset searched. */
  datatype Env = Env(mem: nat -> nat, align: nat, maxSize: nat)

  function Sizes(m: map<nat, Alloc>): map<nat, nat> {
    map k | k in m :: m[k].bytes
  }

  function Live(m: map<nat, Alloc>): set<nat> {
    set k | k in m && m[k].live
  }

  // ---------------------------------------------------------------- what points into what

  /** A word of the region at an aligned address. */
  ghost predicate WordAt(env: Env, ptr: nat, size: nat, a: nat)
    requires 0 < env.align
  {
    a % env.align == 0 && ptr <= a && a + WORD <= ptr + size
  }

  /** The address leads the interior search to object k. */
  ghost predicate Leads(objects: map<nat, nat>, maxSize: nat, addr: nat, k: nat) {
    k in objects && (k == addr || k <= addr < k + objects[k]) && Within(k, addr, maxSize)
  }

  /** Some aligned word of the region points into object k. */
  ghost predicate PointsTo(env: Env, objects: map<nat, nat>, ptr: nat, size: nat, k: nat)
    requires 0 < env.align
  {
    exists a: nat :: WordAt(env, ptr, size, a) && Leads(objects, env.maxSize, env.mem(a), k)
  }

  /** Everything the region points into is in the set. */
  ghost predicate Covered(env: Env, objects: map<nat, nat>, ptr: nat, size: nat, x: set<nat>)
    requires 0 < env.align
  {
    forall a: nat, k: nat {:trigger WordAt(env, ptr, size, a), Leads(objects, env.maxSize, env.mem(a), k)} ::
      WordAt(env, ptr, size, a) && Leads(objects, env.maxSize, env.mem(a), k) ==> k in x
  }

  /**
   * A set that holds what was live before and the roots on the heap, and that is closed: all the
   * worklist regions, and all its members that were not live before, point only into the set.
   */
  ghost predicate Closed(env: Env, objects: map<nat, nat>, before: set<nat>, roots: seq<Region>, x: set<nat>)
    requires 0 < env.align
  {
    && before <= x
    && (forall i :: 0 <= i < |roots| ==> RootIn(objects, roots[i], x) && Covered(env, objects, roots[i].ptr, roots[i].size, x))
    && (forall o :: o in x && o !in before && o in objects ==> Covered(env, objects, o, objects[o], x))
  }

  predicate RootIn(objects: map<nat, nat>, r: Region, x: set<nat>) {
    r.place == MustBeOnHeap && r.ptr in objects ==> r.ptr in x
  }

  /** The set is contained in every closed set. */
  ghost predicate BelowAll(env: Env, objects: map<nat, nat>, before: set<nat>, roots: seq<Region>, l: set<nat>)
    requires 0 < env.align
  {
    forall x: set<nat> {:trigger Closed(env, objects, before, roots, x)} :: Closed(env, objects, before, roots, x) ==> l <= x
  }

  /** Roots on the heap come with the size of their object. */
  predicate RootsSized(objects: map<nat, nat>, roots: seq<Region>) {
    forall i :: 0 <= i < |roots| && roots[i].place == MustBeOnHeap && roots[i].ptr in objects ==>
      roots[i].size == objects[roots[i].ptr]
  }

  /** Two objects that both contain an address are the same object. */
  lemma LeadsUnique(m: map<nat, Alloc>, maxSize: nat, addr: nat, j: nat, k: nat)
    requires Disjoint(AllocSize, m)
    requires Leads(Sizes(m), maxSize, addr, j) && Leads(Sizes(m), maxSize, addr, k)
    ensures j == k
  {
  }

  lemma OnlyHit(m: map<nat, Alloc>, maxSize: nat, addr: nat, hit: nat)
    requires Disjoint(AllocSize, m) && Leads(Sizes(m), maxSize, addr, hit)
    ensures hit in m && hit in Sizes(m) && Sizes(m)[hit] == m[hit].bytes
    ensures forall k: nat :: Leads(Sizes(m), maxSize, addr, k) ==> k == hit
  {
    forall k: nat | Leads(Sizes(m), maxSize, addr, k) ensures k == hit {
      LeadsUnique(m, maxSize, addr, hit, k);
    }
  }

  /** If no object is longer than maxSize, the search bound never matters. */
  lemma BoundNeverMatters(objects: map<nat, nat>, maxSize: nat, addr: nat, k: nat)
    requires forall o :: o in objects ==> objects[o] <= maxSize
    ensures Leads(objects, maxSize, addr, k) <==> k in objects && (k == addr || k <= addr < k + objects[k])
  {
  }

  // ---------------------------------------------------------------- the address-range filter

  /** The bounds NewHook keeps: they enclose every recorded object. */
  ghost predicate Bounded(objects: map<nat, nat>, lo: nat, hi: nat) {
    forall k :: k in objects ==> lo <= k && k + objects[k] <= hi
  }

  lemma BoundsWiden(m: map<nat, Alloc>, lo: nat, hi: nat, ptr: nat, size: nat)
    requires Bounded(Sizes(m), lo, hi)
    ensures Bounded(Sizes(m[ptr := Alloc(size, false)]), if ptr < lo then ptr else lo, if hi < ptr + size then ptr + size else hi)
  {
    var m' := m[ptr := Alloc(size, false)];
    forall k | k in Sizes(m')
      ensures (if ptr < lo then ptr else lo) <= k && k + Sizes(m')[k] <= if hi < ptr + size then ptr + size else hi
    {
      if k != ptr {
        assert k in Sizes(m);
      }
    }
  }

  /** An address outside the bounds leads to nothing, so the filter never changes the result. */
  lemma FilterSound(objects: map<nat, nat>, lo: nat, hi: nat, maxSize: nat, addr: nat, k: nat)
    requires Bounded(objects, lo, hi) && Leads(objects, maxSize, addr, k)
    ensures lo <= addr <= hi
  {
  }

  // ---------------------------------------------------------------- the flood

  class Checker {
    const index: AddressIndex<Alloc>
    var work: seq<Region>
    var minAddress: nat
    var maxAddress: nat
    var liveObjects: nat
    var liveBytes: nat

    constructor (index: AddressIndex<Alloc>)
      ensures this.index == index && work == []
    {
      this.index := index;
      work, minAddress, maxAddress := [], 0xFFFF_FFFF_FFFF_FFFF, 0;
      liveObjects, liveBytes := 0, 0;
    }

    ghost predicate Valid()
      reads `minAddress, `maxAddress, index
    {
      && index.Valid()
      && Disjoint(AllocSize, index.contents)
      && Bounded(Sizes(index.contents), minAddress, maxAddress)
    }

    /** NewHook: records an allocation and widens the address bounds to enclose it. */
    method NewHook(ptr: nat, size: nat)
      requires Valid() && Disjoint(AllocSize, index.contents[ptr := Alloc(size, false)])
      modifies `minAddress, `maxAddress, index
      ensures Valid() && index.contents == old(index.contents)[ptr := Alloc(size, false)]
    {
      hide AddressIndex.Valid, Disjoint;
      BoundsWiden(index.contents, minAddress, maxAddress, ptr, size);
      hide Bounded, Sizes;
      minAddress := if ptr < minAddress then ptr else minAddress;
      maxAddress := if ptr + size > maxAddress then ptr + size else maxAddress;
      index.Insert(ptr, Alloc(size, false));
    }

    /** MarkAsLive: true iff the object exists and was not live. */
    method MarkAsLive(ptr: nat) returns (fresh': bool)
      requires Valid()
      modifies index
      ensures Valid() && Sizes(index.contents) == old(Sizes(index.contents))
      ensures fresh' <==> ptr in old(index.contents) && ptr !in old(Live(index.contents))
      ensures Live(index.contents) == old(Live(index.contents)) + (if fresh' then {ptr} else {})
    {
      var found := index.Find(ptr);
      fresh' := found.Some? && !found.value.live;
      if fresh' {
        MarkChanges(index.contents, ptr);
        index.Insert(ptr, found.value.(live := true));
      }
    }

    static lemma MarkChanges(m: map<nat, Alloc>, ptr: nat)
      requires ptr in m && Disjoint(AllocSize, m)
      ensures var m' := m[ptr := m[ptr].(live := true)];
              Sizes(m') == Sizes(m) && Live(m') == Live(m) + {ptr} && Disjoint(AllocSize, m')
    {
    }

    /** HaveOnHeapLocked behind the fast range check: the object an address leads to, if any. */
    method Lookup(env: Env, addr: nat) returns (r: Option<nat>)
      requires Valid()
      ensures r.Some? ==> Leads(Sizes(index.contents), env.maxSize, addr, r.value)
      ensures r.None? ==> forall k: nat :: !Leads(Sizes(index.contents), env.maxSize, addr, k)
    {
      r := None;
      if addr <= maxAddress && minAddress <= addr {
        r := index.FindInside(AllocSize, env.maxSize, addr);
        forall k: nat ensures r.None? ==> !Leads(Sizes(index.contents), env.maxSize, addr, k) {
          assert k in index.contents && Within(k, addr, env.maxSize) && r.None? ==>
                   !Contains(AllocSize, k, index.contents[k], addr);
        }
      } else {
        forall k: nat ensures !Leads(Sizes(index.contents), env.maxSize, addr, k) {
          if Leads(Sizes(index.contents), env.maxSize, addr, k) {
            FilterSound(Sizes(index.contents), minAddress, maxAddress, env.maxSize, addr, k);
          }
        }
      }
    }

    /** Marks and queues what the word at one address leads to. */
    method Visit(env: Env, addr: nat, ghost before: map<nat, nat>, ghost live: set<nat>) returns (ghost found: seq<Region>)
      requires Valid() && before == Sizes(index.contents) && live == Live(index.contents)
      modifies `work, `liveObjects, `liveBytes, index
      ensures Valid() && Sizes(index.contents) == before
      ensures work == old(work) + found && Queued(before, live, found)
      ensures Live(index.contents) == live + Starts(found)
      ensures forall k :: k in Starts(found) ==> Leads(before, env.maxSize, addr, k)
      ensures forall k: nat :: Leads(before, env.maxSize, addr, k) ==> k in Live(index.contents)
      ensures liveObjects == old(liveObjects) + |found| && liveBytes == old(liveBytes) + Bytes(found)
    {
      hide Live, Bounded, AddressIndex.Valid;
      found := [];
      var hit := Lookup(env, addr);
      if hit.Some? {
        OnlyHit(index.contents, env.maxSize, addr, hit.value);
        var alloc := index.Find(hit.value);
        hide Checker.Valid, Sizes, Leads;
        var marked := MarkAsLive(hit.value);
        if marked {
          found := [Region(hit.value, alloc.value.bytes, IgnoredOnHeap)];
          assert Starts(found) == {hit.value};
          liveObjects := liveObjects + 1;
          liveBytes := liveBytes + alloc.value.bytes;
          work := work + [Region(hit.value, alloc.value.bytes, IgnoredOnHeap)];
        }
      }
    }

    /** The first aligned address of the region and how many bytes of the region are left there. */
    static method FirstWord(env: Env, r: Region) returns (at: nat, size: nat)
      requires 0 < env.align
      ensures at % env.align == 0 && r.ptr <= at
      ensures forall a: nat :: WordAt(env, r.ptr, r.size, a) ==> at <= a
      ensures WORD <= size ==> at + size == r.ptr + r.size
      ensures size < WORD ==> r.ptr + r.size < at + WORD
    {
      at, size := r.ptr, r.size;
      var remainder := at % env.align;
      if remainder != 0 {
        AlignUp(r.ptr, env.align);
        at := at + (env.align - remainder);
        size := if size >= env.align - remainder then size - (env.align - remainder) else 0;
      }
    }

    /**
     * The inner loop: every aligned word of the region is looked up, and what it leads to is marked
     * and queued unless it was live already.
     */
    method ScanRegion(env: Env, r: Region) returns (ghost found: seq<Region>)
      requires Valid() && 0 < env.align
      modifies `work, `liveObjects, `liveBytes, index
      ensures Valid() && Sizes(index.contents) == old(Sizes(index.contents))
      ensures work == old(work) + found
      ensures Queued(Sizes(index.contents), old(Live(index.contents)), found)
      ensures Live(index.contents) == old(Live(index.contents)) + Starts(found)
      ensures forall k :: k in Starts(found) ==> PointsTo(env, Sizes(index.contents), r.ptr, r.size, k)
      ensures Covered(env, Sizes(index.contents), r.ptr, r.size, Live(index.contents))
      ensures liveObjects == old(liveObjects) + |found| && liveBytes == old(liveBytes) + Bytes(found)
    {
      hide Checker.Valid, Sizes, Live, Leads, Queued, PointsTo, Covered, CoveredBelow, WordAt, Starts, Bytes;
      found := [];
      ghost var objects, live := Sizes(index.contents), Live(index.contents);
      NothingQueued(objects, live);
      var at, size := FirstWord(env, r);
      NothingBelow(env, objects, r, at, live);
      if size < WORD {
        AllBelow(env, objects, r, at, live);
        return;
      }
      var maxObject := at + size - WORD;
      while at <= maxObject
        invariant Valid() && Sizes(index.contents) == objects
        invariant at % env.align == 0 && r.ptr <= at && maxObject + WORD == r.ptr + r.size
        invariant work == old(work) + found && Queued(objects, live, found)
        invariant Live(index.contents) == live + Starts(found)
        invariant forall k :: k in Starts(found) ==> PointsTo(env, objects, r.ptr, r.size, k)
        invariant CoveredBelow(env, objects, r, at, Live(index.contents))
        invariant liveObjects == old(liveObjects) + |found| && liveBytes == old(liveBytes) + Bytes(found)
        decreases maxObject + 1 - at
      {
        ghost var was, sofar := Live(index.contents), found;
        ghost var more := Visit(env, env.mem(at), objects, was);
        found := sofar + more;
        QueuedAppend(objects, live, sofar, more);
        WordPointsTo(env, objects, r, at, more);
        CoverOneMore(env, objects, r, at, was, Live(index.contents));
        AlignStep(at, env.align);
        at := at + env.align;
      }
      AllBelow(env, objects, r, at, Live(index.contents));
    }

    /** Marks a root that must be on the heap. */
    method MarkRoot(r: Region, ghost objects: map<nat, nat>) returns (ghost found: seq<Region>)
      requires Valid() && objects == Sizes(index.contents) && RootsSized(objects, [r])
      modifies `liveObjects, `liveBytes, index
      ensures Valid() && Sizes(index.contents) == objects
      ensures Queued(objects, old(Live(index.contents)), found) && Live(index.contents) == old(Live(index.contents)) + Starts(found)
      ensures Starts(found) <= {r.ptr} && (r.place != MustBeOnHeap ==> found == []) && RootIn(objects, r, Live(index.contents))
      ensures liveObjects == old(liveObjects) + |found| && liveBytes == old(liveBytes) + Bytes(found)
    {
      hide Checker.Valid, Live;
      found := [];
      if r.place == MustBeOnHeap {
        assert r.ptr in index.contents <==> r.ptr in objects;
        hide Sizes;
        var marked := MarkAsLive(r.ptr);
        if marked {
          found := [Region(r.ptr, r.size, IgnoredOnHeap)];
          assert Starts(found) == {r.ptr};
          assert [r][0] == r;
          liveObjects := liveObjects + 1;
          liveBytes := liveBytes + r.size;
        }
      }
    }

    /**
     * IgnoreLiveObjectsLocked: empties the worklist. The objects live at the end are the least set
     * that holds the objects live at the start and the roots and is closed under pointing into.
     */
    method Flood(env: Env)
      requires Valid() && 0 < env.align && RootsSized(Sizes(index.contents), work)
      modifies `work, `liveObjects, `liveBytes, index
      ensures Valid() && work == [] && Sizes(index.contents) == old(Sizes(index.contents))
      ensures Closed(env, Sizes(index.contents), old(Live(index.contents)), old(work), Live(index.contents))
      ensures BelowAll(env, Sizes(index.contents), old(Live(index.contents)), old(work), Live(index.contents))
      ensures Live(index.contents) - old(Live(index.contents)) <= Sizes(index.contents).Keys
      ensures liveObjects == old(liveObjects) + |Live(index.contents) - old(Live(index.contents))|
      ensures liveBytes == old(liveBytes) + SumSizes(Sizes(index.contents), Live(index.contents) - old(Live(index.contents)))
    {
      hide *;
      ghost var objects, before, roots := Sizes(index.contents), Live(index.contents), work;
      ghost var left: nat, pending := |roots|, [];
      ghost var count, bytes := liveObjects, liveBytes;
      StartProgress(env, objects, before, roots);
      while work != []
        invariant Valid() && Sizes(index.contents) == objects
        invariant left <= |roots| && work == roots[..left] + pending
        invariant Progress(env, objects, before, roots, left, pending, Live(index.contents))
        invariant Tally(objects, before, Live(index.contents), liveObjects - count, liveBytes - bytes)
        decreases objects.Keys - Live(index.contents), |work|
      {
        ghost var l := Live(index.contents);
        var r := work[|work| - 1];
        work := work[..|work| - 1];
        SizedSoFar(env, objects, before, roots, left, pending, l, r);
        ghost var marked := MarkRoot(r, objects);
        ghost var found := ScanRegion(env, r);
        left, pending := FloodStep(env, objects, before, roots, left, pending, l, r, marked, found,
                                   liveObjects - |found| - |marked| - count, liveBytes - Bytes(found) - Bytes(marked) - bytes);
      }
      EndProgress(env, objects, before, roots, Live(index.contents), liveObjects - count, liveBytes - bytes);
    }
  }

  // ---------------------------------------------------------------- progress of the flood

  /**
   * The roots from left on are done, the pending regions are new objects still to be scanned, and
   * every other new object points only into the live set, which is no larger than it has to be.
   */
  ghost predicate Progress(env: Env, objects: map<nat, nat>, before: set<nat>, roots: seq<Region>, left: nat,
                           pending: seq<Region>, l: set<nat>)
    requires 0 < env.align
  {
    && before <= l && l - before <= objects.Keys
    && left <= |roots| && RootsSized(objects, roots)
    && (forall i :: left <= i < |roots| ==> RootIn(objects, roots[i], l) && Covered(env, objects, roots[i].ptr, roots[i].size, l))
    && (forall i :: 0 <= i < |pending| ==>
          && pending[i].place == IgnoredOnHeap && pending[i].ptr in l && pending[i].ptr !in before
          && pending[i].ptr in objects && pending[i].size == objects[pending[i].ptr])
    && (forall o :: o in l && o !in before ==> o in Starts(pending) || Covered(env, objects, o, objects[o], l))
    && BelowAll(env, objects, before, roots, l)
  }

  lemma StartProgress(env: Env, objects: map<nat, nat>, before: set<nat>, roots: seq<Region>)
    requires 0 < env.align && RootsSized(objects, roots)
    ensures Progress(env, objects, before, roots, |roots|, [], before)
    ensures roots[..|roots|] + [] == roots && Tally(objects, before, before, 0, 0)
  {
    assert before - before == {};
  }

  lemma EndProgress(env: Env, objects: map<nat, nat>, before: set<nat>, roots: seq<Region>, l: set<nat>, count: int, bytes: int)
    requires 0 < env.align && Progress(env, objects, before, roots, 0, [], l) && Tally(objects, before, l, count, bytes)
    ensures Closed(env, objects, before, roots, l) && BelowAll(env, objects, before, roots, l)
    ensures l - before <= objects.Keys && count == |l - before| && bytes == SumSizes(objects, l - before)
  {
  }

  lemma CoveredMore(env: Env, objects: map<nat, nat>, ptr: nat, size: nat, x: set<nat>, y: set<nat>)
    requires 0 < env.align && Covered(env, objects, ptr, size, x) && x <= y
    ensures Covered(env, objects, ptr, size, y)
  {
  }

  /** What a covered region points to is in the covering set. */
  lemma CoveredHolds(env: Env, objects: map<nat, nat>, ptr: nat, size: nat, x: set<nat>, k: nat)
    requires 0 < env.align && Covered(env, objects, ptr, size, x) && PointsTo(env, objects, ptr, size, k)
    ensures k in x
  {
    var a: nat :| WordAt(env, ptr, size, a) && Leads(objects, env.maxSize, env.mem(a), k);
  }

  /** The popped region is either a root or a pending object; roots on the heap are full size. */
  lemma SizedSoFar(env: Env, objects: map<nat, nat>, before: set<nat>, roots: seq<Region>, left: nat,
                   pending: seq<Region>, l: set<nat>, r: Region)
    requires 0 < env.align && Progress(env, objects, before, roots, left, pending, l)
    requires roots[..left] + pending != [] && r == (roots[..left] + pending)[|roots[..left] + pending| - 1]
    ensures RootsSized(objects, [r])
    ensures pending != [] ==> r == pending[|pending| - 1] && r.place == IgnoredOnHeap
    ensures pending == [] ==> 0 < left && r == roots[left - 1]
    ensures var w := roots[..left] + pending;
            w[..|w| - 1] == if pending != [] then roots[..left] + pending[..|pending| - 1] else roots[..left - 1]
  {
    var w := roots[..left] + pending;
    if pending != [] {
      assert w[..|w| - 1] == roots[..left] + pending[..|pending| - 1];
    } else {
      assert w == roots[..left];
      assert w[..|w| - 1] == roots[..left - 1];
    }
  }

  lemma PendingStep(env: Env, objects: map<nat, nat>, before: set<nat>, roots: seq<Region>, left: nat,
                    pending: seq<Region>, l: set<nat>, found: seq<Region>)
    requires 0 < env.align && Progress(env, objects, before, roots, left, pending, l) && pending != []
    requires Queued(objects, l, found)
    requires Covered(env, objects, pending[|pending| - 1].ptr, pending[|pending| - 1].size, l + Starts(found))
    requires forall k :: k in Starts(found) ==>
               PointsTo(env, objects, pending[|pending| - 1].ptr, pending[|pending| - 1].size, k)
    ensures Progress(env, objects, before, roots, left, pending[..|pending| - 1] + found, l + Starts(found))
  {
    var last := pending[|pending| - 1];
    var y := l + Starts(found);
    RootsStay(env, objects, roots, left, l, y);
    StartsAppend(pending[..|pending| - 1], found);
    FoundIsNeeded(env, objects, before, roots, l, last, found);
    StartsLast(pending);
    forall o | o in y && o !in before
      ensures o in Starts(pending[..|pending| - 1] + found) || Covered(env, objects, o, objects[o], y)
    {
      if o !in Starts(found) && o !in Starts(pending) {
        CoveredMore(env, objects, o, objects[o], l, y);
      }
    }
  }

  lemma RootStep(env: Env, objects: map<nat, nat>, before: set<nat>, roots: seq<Region>, left: nat,
                 l: set<nat>, marked: seq<Region>, found: seq<Region>)
    requires 0 < env.align && 0 < left && Progress(env, objects, before, roots, left, [], l)
    requires Queued(objects, l, marked) && Queued(objects, l + Starts(marked), found)
    requires Starts(marked) <= {roots[left - 1].ptr} && (roots[left - 1].place != MustBeOnHeap ==> marked == [])
    requires RootIn(objects, roots[left - 1], l + Starts(marked))
    requires Covered(env, objects, roots[left - 1].ptr, roots[left - 1].size, l + Starts(marked) + Starts(found))
    requires forall k :: k in Starts(found) ==> PointsTo(env, objects, roots[left - 1].ptr, roots[left - 1].size, k)
    ensures Progress(env, objects, before, roots, left - 1, found, l + Starts(marked) + Starts(found))
  {
    var r := roots[left - 1];
    var y := l + Starts(marked) + Starts(found);
    RootsStay(env, objects, roots, left, l, y);
    RootIsNeeded(env, objects, before, roots, left - 1, l, marked, found);
    forall o | o in y && o !in before ensures o in Starts(found) || Covered(env, objects, o, objects[o], y) {
      if o in l {
        CoveredMore(env, objects, o, objects[o], l, y);
      }
    }
  }

  /** One round: where the worklist, the live set, the counters and the measure stand after it. */
  lemma FloodStep(env: Env, objects: map<nat, nat>, before: set<nat>, roots: seq<Region>, left: nat,
                  pending: seq<Region>, l: set<nat>, r: Region, marked: seq<Region>, found: seq<Region>,
                  count: int, bytes: int) returns (left': nat, pending': seq<Region>)
    requires 0 < env.align && Progress(env, objects, before, roots, left, pending, l) && left <= |roots|
    requires roots[..left] + pending != [] && r == (roots[..left] + pending)[|roots[..left] + pending| - 1]
    requires Tally(objects, before, l, count, bytes)
    requires Queued(objects, l, marked) && Queued(objects, l + Starts(marked), found)
    requires Starts(marked) <= {r.ptr} && (r.place != MustBeOnHeap ==> marked == []) && RootIn(objects, r, l + Starts(marked))
    requires Covered(env, objects, r.ptr, r.size, l + Starts(marked) + Starts(found))
    requires forall k :: k in Starts(found) ==> PointsTo(env, objects, r.ptr, r.size, k)
    ensures left' <= |roots|
    ensures var w := roots[..left] + pending; w[..|w| - 1] + found == roots[..left'] + pending'
    ensures Progress(env, objects, before, roots, left', pending', l + Starts(marked) + Starts(found))
    ensures Tally(objects, before, l + Starts(marked) + Starts(found), count + |marked| + |found|, bytes + Bytes(marked) + Bytes(found))
    ensures var y := l + Starts(marked) + Starts(found);
            if marked == [] && found == [] then y == l else objects.Keys - y < objects.Keys - l
  {
    hide *;
    SizedSoFar(env, objects, before, roots, left, pending, l, r);
    TallyMore(objects, before, l, marked, count, bytes);
    TallyMore(objects, before, l + Starts(marked), found, count + |marked|, bytes + Bytes(marked));
    Shrinks(objects, l, marked, found);
    if pending != [] {
      NothingQueued(objects, l);
      assert l + {} == l;
      PendingStep(env, objects, before, roots, left, pending, l, found);
      left', pending' := left, pending[..|pending| - 1] + found;
    } else {
      RootStep(env, objects, before, roots, left, l, marked, found);
      left', pending' := left - 1, found;
    }
  }

  /** Roots that are done stay done as the live set grows. */
  lemma RootsStay(env: Env, objects: map<nat, nat>, roots: seq<Region>, left: nat, x: set<nat>, y: set<nat>)
    requires 0 < env.align && x <= y
    requires forall i :: left <= i < |roots| ==> RootIn(objects, roots[i], x) && Covered(env, objects, roots[i].ptr, roots[i].size, x)
    ensures forall i :: left <= i < |roots| ==> RootIn(objects, roots[i], y) && Covered(env, objects, roots[i].ptr, roots[i].size, y)
  {
    forall i | left <= i < |roots| ensures RootIn(objects, roots[i], y) && Covered(env, objects, roots[i].ptr, roots[i].size, y) {
      CoveredMore(env, objects, roots[i].ptr, roots[i].size, x, y);
    }
  }

  /** What a new live object points to is in every closed set. */
  lemma FoundIsNeeded(env: Env, objects: map<nat, nat>, before: set<nat>, roots: seq<Region>, l: set<nat>,
                      r: Region, found: seq<Region>)
    requires 0 < env.align && BelowAll(env, objects, before, roots, l)
    requires r.ptr in l && r.ptr !in before && r.ptr in objects && r.size == objects[r.ptr]
    requires forall k :: k in Starts(found) ==> PointsTo(env, objects, r.ptr, r.size, k)
    ensures BelowAll(env, objects, before, roots, l + Starts(found))
  {
    forall x: set<nat> | Closed(env, objects, before, roots, x) ensures l + Starts(found) <= x {
      forall k | k in Starts(found) ensures k in x {
        CoveredHolds(env, objects, r.ptr, r.size, x, k);
      }
    }
  }

  /** A root and what it points to are in every closed set. */
  lemma RootIsNeeded(env: Env, objects: map<nat, nat>, before: set<nat>, roots: seq<Region>, i: nat, l: set<nat>,
                     marked: seq<Region>, found: seq<Region>)
    requires 0 < env.align && BelowAll(env, objects, before, roots, l) && i < |roots|
    requires Queued(objects, l, marked) && Starts(marked) <= {roots[i].ptr}
    requires roots[i].place != MustBeOnHeap ==> marked == []
    requires forall k :: k in Starts(found) ==> PointsTo(env, objects, roots[i].ptr, roots[i].size, k)
    ensures BelowAll(env, objects, before, roots, l + Starts(marked) + Starts(found))
  {
    forall x: set<nat> | Closed(env, objects, before, roots, x) ensures l + Starts(marked) + Starts(found) <= x {
      forall k | k in Starts(found) ensures k in x {
        CoveredHolds(env, objects, roots[i].ptr, roots[i].size, x, k);
      }
      assert RootIn(objects, roots[i], x);
    }
  }

  lemma StartsLast(rs: seq<Region>)
    requires rs != []
    ensures Starts(rs) == Starts(rs[..|rs| - 1]) + {rs[|rs| - 1].ptr}
  {
    StartsAppend(rs[..|rs| - 1], [rs[|rs| - 1]]);
    assert rs == rs[..|rs| - 1] + [rs[|rs| - 1]];
    assert Starts([rs[|rs| - 1]]) == {rs[|rs| - 1].ptr};
  }

  /** Every object marked or queued leaves the unmarked set. */
  lemma Shrinks(objects: map<nat, nat>, l: set<nat>, marked: seq<Region>, found: seq<Region>)
    requires Queued(objects, l, marked) && Queued(objects, l + Starts(marked), found)
    ensures var y := l + Starts(marked) + Starts(found);
            if marked == [] && found == [] then y == l else objects.Keys - y < objects.Keys - l
  {
    var y := l + Starts(marked) + Starts(found);
    if marked != [] {
      assert marked[0].ptr in Starts(marked);
      assert marked[0].ptr in objects.Keys - l && marked[0].ptr !in objects.Keys - y;
    } else if found != [] {
      assert found[0].ptr in Starts(found);
      assert found[0].ptr in objects.Keys - l && found[0].ptr !in objects.Keys - y;
    }
  }

  // ---------------------------------------------------------------- reachability

  /** The root itself when it must be on the heap, or an object it points into. */
  ghost predicate RootTarget(env: Env, objects: map<nat, nat>, r: Region, k: nat)
    requires 0 < env.align
  {
    (r.place == MustBeOnHeap && r.ptr == k && k in objects) || PointsTo(env, objects, r.ptr, r.size, k)
  }

  /** A chain of objects from a root, each pointing into the next, through objects not live before. */
  ghost predicate IsPath(env: Env, objects: map<nat, nat>, before: set<nat>, roots: seq<Region>, path: seq<nat>)
    requires 0 < env.align
  {
    && path != []
    && (exists i :: 0 <= i < |roots| && RootTarget(env, objects, roots[i], path[0]))
    && (forall i, j :: 0 <= i < j < |path| && j == i + 1 ==> IsLink(env, objects, before, path[i], path[j]))
  }

  ghost predicate IsLink(env: Env, objects: map<nat, nat>, before: set<nat>, o: nat, k: nat)
    requires 0 < env.align
  {
    o in objects && o !in before && PointsTo(env, objects, o, objects[o], k)
  }

  ghost predicate Reachable(env: Env, objects: map<nat, nat>, before: set<nat>, roots: seq<Region>, k: nat)
    requires 0 < env.align
  {
    exists path: seq<nat> :: IsPath(env, objects, before, roots, path) && path[|path| - 1] == k
  }

  /** A closed set holds every path. */
  lemma {:induction false} PathStaysIn(env: Env, objects: map<nat, nat>, before: set<nat>, roots: seq<Region>,
                                       x: set<nat>, path: seq<nat>, n: nat)
    requires 0 < env.align && Closed(env, objects, before, roots, x) && IsPath(env, objects, before, roots, path)
    requires n < |path|
    ensures path[n] in x
  {
    if n == 0 {
      var i :| 0 <= i < |roots| && RootTarget(env, objects, roots[i], path[0]);
      assert RootIn(objects, roots[i], x);
      if PointsTo(env, objects, roots[i].ptr, roots[i].size, path[0]) {
        CoveredHolds(env, objects, roots[i].ptr, roots[i].size, x, path[0]);
      }
    } else {
      PathStaysIn(env, objects, before, roots, x, path, n - 1);
      assert IsLink(env, objects, before, path[n - 1], path[n]);
      CoveredHolds(env, objects, path[n - 1], objects[path[n - 1]], x, path[n]);
    }
  }

  lemma RootReachable(env: Env, objects: map<nat, nat>, before: set<nat>, roots: seq<Region>, i: nat, k: nat)
    requires 0 < env.align && i < |roots| && RootTarget(env, objects, roots[i], k)
    ensures Reachable(env, objects, before, roots, k)
  {
    assert IsPath(env, objects, before, roots, [k]);
  }

  lemma PathExtends(env: Env, objects: map<nat, nat>, before: set<nat>, roots: seq<Region>, o: nat, k: nat)
    requires 0 < env.align && Reachable(env, objects, before, roots, o) && o in objects && o !in before
    requires PointsTo(env, objects, o, objects[o], k)
    ensures Reachable(env, objects, before, roots, k)
  {
    var path: seq<nat> :| IsPath(env, objects, before, roots, path) && path[|path| - 1] == o;
    var longer := path + [k];
    assert longer[0] == path[0];
    assert IsPath(env, objects, before, roots, longer);
  }

  /** What was live and what is reachable form a closed set. */
  lemma ReachableClosed(env: Env, objects: map<nat, nat>, before: set<nat>, roots: seq<Region>, x: set<nat>)
    requires 0 < env.align
    requires forall k :: k in x <==> k in before || (k in objects && Reachable(env, objects, before, roots, k))
    ensures Closed(env, objects, before, roots, x)
  {
    forall i | 0 <= i < |roots|
      ensures RootIn(objects, roots[i], x) && Covered(env, objects, roots[i].ptr, roots[i].size, x)
    {
      if roots[i].place == MustBeOnHeap && roots[i].ptr in objects {
        RootReachable(env, objects, before, roots, i, roots[i].ptr);
      }
      forall a: nat, k: nat | WordAt(env, roots[i].ptr, roots[i].size, a) && Leads(objects, env.maxSize, env.mem(a), k)
        ensures k in x
      {
        assert RootTarget(env, objects, roots[i], k);
        RootReachable(env, objects, before, roots, i, k);
      }
    }
    forall o | o in x && o !in before && o in objects ensures Covered(env, objects, o, objects[o], x) {
      forall a: nat, k: nat | WordAt(env, o, objects[o], a) && Leads(objects, env.maxSize, env.mem(a), k) ensures k in x {
        PathExtends(env, objects, before, roots, o, k);
      }
    }
  }

  /**
   * The result of a flood, as reachability: an object is live afterwards if and only if it was live
   * before or some chain of pointers leads from a root to it.
   */
  lemma FloodIsReachability(env: Env, objects: map<nat, nat>, before: set<nat>, roots: seq<Region>, l: set<nat>, k: nat)
    requires 0 < env.align
    requires Closed(env, objects, before, roots, l) && BelowAll(env, objects, before, roots, l)
    ensures k in l <==> k in before || Reachable(env, objects, before, roots, k)
  {
    var r := before + set o | o in objects && Reachable(env, objects, before, roots, o);
    ReachableClosed(env, objects, before, roots, r);
    if Reachable(env, objects, before, roots, k) {
      var path: seq<nat> :| IsPath(env, objects, before, roots, path) && path[|path| - 1] == k;
      PathStaysIn(env, objects, before, roots, l, path, |path| - 1);
    }
  }

  /**
   * Successive floods: if everything live before pointed only into live objects, the same holds
   * after the flood, so the floods over stacks, registers and globals add up.
   */
  lemma FloodsAddUp(env: Env, objects: map<nat, nat>, before: set<nat>, roots: seq<Region>, l: set<nat>, o: nat)
    requires 0 < env.align && Closed(env, objects, before, roots, l)
    requires forall b :: b in before && b in objects ==> Covered(env, objects, b, objects[b], before)
    requires o in l && o in objects
    ensures Covered(env, objects, o, objects[o], l)
  {
    if o in before {
      CoveredMore(env, objects, o, objects[o], before, l);
    }
  }

  // ---------------------------------------------------------------- the totals

  ghost function SumSizes(objects: map<nat, nat>, s: set<nat>): nat
    requires s <= objects.Keys
    decreases |s|
  {
    if s == {} then 0 else
      var x :| x in s;
      objects[x] + SumSizes(objects, s - {x})
  }

  lemma {:induction false} SumPick(objects: map<nat, nat>, s: set<nat>, y: nat)
    requires s <= objects.Keys && y in s
    ensures SumSizes(objects, s) == objects[y] + SumSizes(objects, s - {y})
    decreases |s|
  {
    var x :| x in s && SumSizes(objects, s) == objects[x] + SumSizes(objects, s - {x});
    if x != y {
      SumPick(objects, s - {x}, y);
      SumPick(objects, s - {y}, x);
      assert s - {x} - {y} == s - {y} - {x};
    }
  }

  /** The counters hold the number and the bytes of the new live objects. */
  ghost predicate Tally(objects: map<nat, nat>, before: set<nat>, l: set<nat>, count: int, bytes: int) {
    && before <= l && l - before <= objects.Keys
    && count == |l - before| && bytes == SumSizes(objects, l - before)
  }

  lemma {:induction false} TallyMore(objects: map<nat, nat>, before: set<nat>, l: set<nat>, found: seq<Region>, count: int, bytes: int)
    requires Tally(objects, before, l, count, bytes) && Queued(objects, l, found)
    ensures Tally(objects, before, l + Starts(found), count + |found|, bytes + Bytes(found))
    decreases |found|
  {
    hide Tally, Queued, Starts;
    if found == [] {
      NothingQueued(objects, l);
      assert l + {} == l;
    } else {
      var rest, last := found[..|found| - 1], found[|found| - 1];
      QueuedLast(objects, l, found);
      TallyMore(objects, before, l, rest, count, bytes);
      StartsLast(found);
      assert l + Starts(found) == l + Starts(rest) + {last.ptr};
      TallyOne(objects, before, l + Starts(rest), last.ptr, count + |rest|, bytes + Bytes(rest));
    }
  }

  lemma TallyOne(objects: map<nat, nat>, before: set<nat>, l: set<nat>, y: nat, count: int, bytes: int)
    requires Tally(objects, before, l, count, bytes) && y in objects && y !in l
    ensures Tally(objects, before, l + {y}, count + 1, bytes + objects[y])
  {
    var s, t := l - before, l + {y} - before;
    assert t == s + {y};
    SumPick(objects, t, y);
    assert t - {y} == s;
  }

  lemma QueuedLast(objects: map<nat, nat>, l: set<nat>, rs: seq<Region>)
    requires rs != [] && Queued(objects, l, rs)
    ensures var last := rs[|rs| - 1];
            && last.ptr in objects && last.size == objects[last.ptr] && last.ptr !in l
            && Queued(objects, l, rs[..|rs| - 1]) && last.ptr !in Starts(rs[..|rs| - 1])
  {
  }

  // ---------------------------------------------------------------- what a scan queues

  function Starts(rs: seq<Region>): set<nat> {
    set r | r in rs :: r.ptr
  }

  function Bytes(rs: seq<Region>): nat {
    if rs == [] then 0 else Bytes(rs[..|rs| - 1]) + rs[|rs| - 1].size
  }

  /** Queued regions are distinct objects that were not live, each at its full size. */
  ghost predicate Queued(objects: map<nat, nat>, live: set<nat>, rs: seq<Region>) {
    && (forall i :: 0 <= i < |rs| ==>
          rs[i].place == IgnoredOnHeap && rs[i].ptr in objects && rs[i].ptr !in live && rs[i].size == objects[rs[i].ptr])
    && (forall i, j :: 0 <= i < j < |rs| ==> rs[i].ptr != rs[j].ptr)
  }

  lemma StartsAppend(a: seq<Region>, b: seq<Region>)
    ensures Starts(a + b) == Starts(a) + Starts(b)
  {
    forall x ensures x in Starts(a + b) <==> x in Starts(a) + Starts(b) {
      if x in Starts(a) {
        var r :| r in a && r.ptr == x;
        assert r in a + b;
      }
      if x in Starts(b) {
        var r :| r in b && r.ptr == x;
        assert r in a + b;
      }
    }
  }

  lemma {:induction false} BytesAppend(a: seq<Region>, b: seq<Region>)
    ensures Bytes(a + b) == Bytes(a) + Bytes(b)
  {
    if b == [] {
      assert a + b == a;
    } else {
      BytesAppend(a, b[..|b| - 1]);
      assert (a + b)[..|a + b| - 1] == a + b[..|b| - 1];
    }
  }

  lemma NothingQueued(objects: map<nat, nat>, live: set<nat>)
    ensures Queued(objects, live, []) && Starts([]) == {} && Bytes([]) == 0
  {
  }

  lemma QueuedAppend(objects: map<nat, nat>, live: set<nat>, a: seq<Region>, b: seq<Region>)
    requires Queued(objects, live, a) && Queued(objects, live + Starts(a), b)
    ensures Queued(objects, live, a + b) && Starts(a + b) == Starts(a) + Starts(b) && Bytes(a + b) == Bytes(a) + Bytes(b)
  {
    StartsAppend(a, b);
    BytesAppend(a, b);
    forall i, j | 0 <= i < j < |a + b| ensures (a + b)[i].ptr != (a + b)[j].ptr {
      if i < |a| <= j {
        assert a[i].ptr in Starts(a);
        assert b[j - |a|].ptr !in live + Starts(a);
      }
    }
  }

  /** Everything the words below an address point into is in the set. */
  ghost predicate CoveredBelow(env: Env, objects: map<nat, nat>, r: Region, end: nat, x: set<nat>)
    requires 0 < env.align
  {
    forall a: nat, k: nat {:trigger WordAt(env, r.ptr, r.size, a), Leads(objects, env.maxSize, env.mem(a), k)} ::
      a < end && WordAt(env, r.ptr, r.size, a) && Leads(objects, env.maxSize, env.mem(a), k) ==> k in x
  }

  lemma NothingBelow(env: Env, objects: map<nat, nat>, r: Region, at: nat, x: set<nat>)
    requires 0 < env.align
    requires forall a: nat :: WordAt(env, r.ptr, r.size, a) ==> at <= a
    ensures CoveredBelow(env, objects, r, at, x)
  {
  }

  lemma AllBelow(env: Env, objects: map<nat, nat>, r: Region, at: nat, x: set<nat>)
    requires 0 < env.align && r.ptr + r.size < at + WORD
    requires CoveredBelow(env, objects, r, at, x)
    ensures Covered(env, objects, r.ptr, r.size, x)
  {
  }

  lemma WordPointsTo(env: Env, objects: map<nat, nat>, r: Region, at: nat, found: seq<Region>)
    requires 0 < env.align && at % env.align == 0 && r.ptr <= at && at + WORD <= r.ptr + r.size
    requires forall k :: k in Starts(found) ==> Leads(objects, env.maxSize, env.mem(at), k)
    ensures forall k :: k in Starts(found) ==> PointsTo(env, objects, r.ptr, r.size, k)
  {
    assert WordAt(env, r.ptr, r.size, at);
  }

  lemma CoverOneMore(env: Env, objects: map<nat, nat>, r: Region, at: nat, x: set<nat>, y: set<nat>)
    requires 0 < env.align && at % env.align == 0
    requires CoveredBelow(env, objects, r, at, x) && x <= y
    requires forall k: nat :: Leads(objects, env.maxSize, env.mem(at), k) ==> k in y
    ensures CoveredBelow(env, objects, r, at + env.align, y)
  {
    forall a: nat, k: nat | a < at + env.align && WordAt(env, r.ptr, r.size, a) && Leads(objects, env.maxSize, env.mem(a), k)
      ensures k in y
    {
      if a >= at {
        NoneBetween(at, a, env.align);
      }
    }
  }

  /** Between two neighbouring multiples there is no other. */
  lemma NoneBetween(m: nat, a: nat, align: nat)
    requires 0 < align && m % align == 0 && a % align == 0 && m <= a < m + align
    ensures a == m
  {
    assert m == m / align * align;
    Partition.DivIs(a, align, m / align);
    assert a == a / align * align;
  }

  lemma MultipleOf(q: nat, align: nat)
    requires 0 < align
    ensures q * align % align == 0
  {
    Partition.DivIs(q * align, align, q);
  }

  lemma AlignStep(m: nat, align: nat)
    requires 0 < align && m % align == 0
    ensures (m + align) % align == 0
  {
    MultipleOf(m / align + 1, align);
    assert m + align == (m / align + 1) * align;
  }

  /** Rounding up gives a multiple, with none skipped. */
  lemma AlignUp(ptr: nat, align: nat)
    requires 0 < align && ptr % align != 0
    ensures (ptr + (align - ptr % align)) % align == 0
    ensures forall a: nat {:trigger a % align} :: a % align == 0 && ptr <= a ==> ptr + (align - ptr % align) <= a
  {
    var q := ptr / align;
    var up := ptr + (align - ptr % align);
    assert up == (q + 1) * align;
    MultipleOf(q, align);
    MultipleOf(q + 1, align);
    forall a: nat | a % align == 0 && ptr <= a ensures up <= a {
      if a < up {
        NoneBetween(q * align, a, align);
      }
    }
  }
}
