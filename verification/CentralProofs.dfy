/**
 * Every step of the central cache keeps its invariants: one lock per thread, slots within limits,
 * and every object of every listed span at exactly one place.
 */
module CentralProofs {
  import opened Collections
  import opened CentralList
  import opened CentralCache

  // ---------------------------------------------------------------- locks

  lemma LocksSame(locks: seq<Option<nat>>, threads: seq<Pc>, t: nat, pc: Pc)
    requires LocksInv(locks, threads) && t < |threads| && Holds(pc) == Holds(threads[t])
    ensures LocksInv(locks, threads[t := pc])
  {
    hide Holds;
  }

  lemma LocksTake(locks: seq<Option<nat>>, threads: seq<Pc>, t: nat, pc: Pc, c: nat)
    requires LocksInv(locks, threads) && t < |threads| && Holds(threads[t]) == None
    requires Holds(pc) == Some(c) && c < |locks| && locks[c] == None
    ensures LocksInv(locks[c := Some(t)], threads[t := pc])
  {
    hide Holds;
  }

  lemma LocksDrop(locks: seq<Option<nat>>, threads: seq<Pc>, t: nat, pc: Pc, c: nat)
    requires LocksInv(locks, threads) && t < |threads| && Holds(threads[t]) == Some(c) && Holds(pc) == None
    ensures c < |locks| && LocksInv(locks[c := None], threads[t := pc])
  {
    hide Holds;
  }

  // ---------------------------------------------------------------- the class fields

  /** A step of the thread that has the class lock. */
  lemma ListsWork(cfg: Config, lists: seq<Central>, locks: seq<Option<nat>>, threads: seq<Pc>, t: nat, pc: Pc, c: nat, l: Central)
    requires ListsInv(cfg, lists, locks, threads) && LocksInv(locks, threads)
    requires t < |threads| && Holds(threads[t]) == Some(c) && c < |lists| && ListOk(cfg, c, l, AddedBy(pc))
    ensures ListsInv(cfg, lists[c := l], locks, threads[t := pc])
    ensures AddedBy(pc) == {} ==> ListsInv(cfg, lists[c := l], locks[c := None], threads[t := pc])
  {
    hide Holds, ListOk, ValidConfig;
    assert locks[c] == Some(t);
    forall d | 0 <= d < |lists| && d != c
      ensures Unused(locks, threads[t := pc], d) == Unused(locks, threads, d)
      ensures Unused(locks[c := None], threads[t := pc], d) == Unused(locks, threads, d)
    {
      assert locks[d] != Some(t);
    }
    assert Unused(locks, threads[t := pc], c) == AddedBy(pc);
    assert Unused(locks[c := None], threads[t := pc], c) == {};
  }

  /** A step of a thread without a class lock, or one that takes a free lock. */
  lemma ListsWait(cfg: Config, lists: seq<Central>, locks: seq<Option<nat>>, threads: seq<Pc>, t: nat, pc: Pc)
    requires ListsInv(cfg, lists, locks, threads) && LocksInv(locks, threads)
    requires t < |threads| && Holds(threads[t]) == None && AddedBy(pc) == {}
    ensures ListsInv(cfg, lists, locks, threads[t := pc])
    ensures forall c :: 0 <= c < |locks| && locks[c] == None ==> ListsInv(cfg, lists, locks[c := Some(t)], threads[t := pc])
  {
    hide Holds, ListOk, ValidConfig;
    forall d | 0 <= d < |lists| ensures Unused(locks, threads[t := pc], d) == Unused(locks, threads, d) {
      assert locks[d] != Some(t);
    }
    forall c | 0 <= c < |locks| && locks[c] == None
      ensures ListsInv(cfg, lists, locks[c := Some(t)], threads[t := pc])
    {
      forall d | 0 <= d < |lists| ensures Unused(locks[c := Some(t)], threads[t := pc], d) == Unused(locks, threads, d) {
        assert locks[d] != Some(t);
      }
    }
  }

  // ---------------------------------------------------------------- spans

  lemma HeapSame(lists: seq<Central>, threads: seq<Pc>, heap: map<nat, Owner>, t: nat, pc: Pc, c: nat, l: Central)
    requires HeapInv(lists, threads, heap) && t < |threads| && PrivateSpan(pc) == PrivateSpan(threads[t])
    requires c < |lists| && l.spans.Keys == lists[c].spans.Keys
    ensures HeapInv(lists[c := l], threads[t := pc], heap)
  {
    hide PrivateSpan;
    forall id ensures id in l.spans <==> id in lists[c].spans {
      assert id in l.spans.Keys <==> id in lists[c].spans.Keys;
    }
  }

  lemma HeapPc(lists: seq<Central>, threads: seq<Pc>, heap: map<nat, Owner>, t: nat, pc: Pc)
    requires HeapInv(lists, threads, heap) && t < |threads| && PrivateSpan(pc) == PrivateSpan(threads[t])
    ensures HeapInv(lists, threads[t := pc], heap)
  {
    hide PrivateSpan;
  }

  lemma HeapDropped(lists: seq<Central>, threads: seq<Pc>, heap: map<nat, Owner>, t: nat, pc: Pc, c: nat, l: Central, id: nat)
    requires HeapInv(lists, threads, heap) && t < |threads| && PrivateSpan(threads[t]) == None && PrivateSpan(pc) == Some(id)
    requires c < |lists| && id in lists[c].spans && l.spans.Keys == lists[c].spans.Keys - {id}
    ensures HeapInv(lists[c := l], threads[t := pc], heap[id := Private(t)])
  {
    hide PrivateSpan;
    forall x ensures x in l.spans <==> x in lists[c].spans && x != id {
      assert x in l.spans.Keys <==> x in lists[c].spans.Keys - {id};
    }
  }

  lemma HeapDeleted(lists: seq<Central>, threads: seq<Pc>, heap: map<nat, Owner>, t: nat, pc: Pc, id: nat)
    requires HeapInv(lists, threads, heap) && t < |threads| && PrivateSpan(threads[t]) == Some(id) && PrivateSpan(pc) == None
    ensures HeapInv(lists, threads[t := pc], heap - {id})
  {
    hide PrivateSpan;
  }

  lemma HeapAnswered(lists: seq<Central>, threads: seq<Pc>, heap: map<nat, Owner>, t: nat, pc: Pc, id: nat)
    requires HeapInv(lists, threads, heap) && t < |threads| && PrivateSpan(threads[t]) == None && PrivateSpan(pc) == Some(id)
    requires id !in heap
    ensures HeapInv(lists, threads[t := pc], heap[id := Private(t)])
  {
    hide PrivateSpan;
  }

  lemma HeapListed(lists: seq<Central>, threads: seq<Pc>, heap: map<nat, Owner>, t: nat, pc: Pc, c: nat, l: Central, id: nat)
    requires HeapInv(lists, threads, heap) && t < |threads| && PrivateSpan(threads[t]) == Some(id) && PrivateSpan(pc) == None
    requires c < |lists| && l.spans.Keys == lists[c].spans.Keys + {id}
    ensures HeapInv(lists[c := l], threads[t := pc], heap[id := InClass(c)])
  {
    hide PrivateSpan;
    forall x ensures x in l.spans <==> x in lists[c].spans || x == id {
      assert x in l.spans.Keys <==> x in lists[c].spans.Keys + {id};
    }
  }

  // ---------------------------------------------------------------- what threads hold

  lemma HeldInClass(cfg: Config, heap: map<nat, Owner>, pc: Pc, o: Obj)
    requires PcOk(cfg, heap, pc) && o in HeldBy(pc)
    ensures o.span in heap && heap[o.span].InClass?
  {
  }

  /** A thread does not notice changes to spans none of whose objects it has. */
  lemma PcFrame(cfg: Config, heap: map<nat, Owner>, heap': map<nat, Owner>, pc: Pc)
    requires PcOk(cfg, heap, pc)
    requires forall o :: o in HeldBy(pc) ==> o.span in heap && o.span in heap' && heap'[o.span] == heap[o.span]
    ensures PcOk(cfg, heap', pc)
  {
    hide NoDup;
    match pc
    case Releasing(c, rest, after) => BothFrame(cfg, heap, heap', rest, after, c);
    case Deleting(c, rest, after, _) => BothFrame(cfg, heap, heap', rest, after, c);
    case Relock(c, rest, after) => BothFrame(cfg, heap, heap', rest, after, c);
    case _ =>
  }

  lemma BothFrame(cfg: Config, heap: map<nat, Owner>, heap': map<nat, Owner>, rest: seq<Obj>, after: After, c: nat)
    requires BatchIn(cfg, heap, rest, c) && AfterOk(cfg, heap, after)
    requires forall o :: o in rest + AfterBatch(after) ==> o.span in heap && o.span in heap' && heap'[o.span] == heap[o.span]
    ensures BatchIn(cfg, heap', rest, c) && AfterOk(cfg, heap', after)
  {
    forall o | o in rest ensures OfClass(cfg, heap', o, c) {
      assert o in rest + AfterBatch(after);
    }
    if after.Evicted? {
      forall o | o in after.batch ensures OfClass(cfg, heap', o, after.home) {
        assert o in rest + AfterBatch(after);
      }
    }
  }

  lemma PcsStep(cfg: Config, heap: map<nat, Owner>, threads: seq<Pc>, t: nat, pc: Pc)
    requires PcsInv(cfg, heap, threads) && t < |threads| && PcOk(cfg, heap, pc)
    ensures PcsInv(cfg, heap, threads[t := pc])
  {
    hide PcOk;
  }

  lemma PcsHeap(cfg: Config, heap: map<nat, Owner>, heap': map<nat, Owner>, threads: seq<Pc>, t: nat, pc: Pc)
    requires PcsInv(cfg, heap, threads) && t < |threads| && PcOk(cfg, heap', pc)
    requires forall u, o {:trigger o in HeldBy(threads[u])} :: 0 <= u < |threads| && u != t && o in HeldBy(threads[u]) ==>
               o.span in heap && o.span in heap' && heap'[o.span] == heap[o.span]
    ensures PcsInv(cfg, heap', threads[t := pc])
  {
    hide PcOk, HeldBy;
    forall u | 0 <= u < |threads| && u != t ensures PcOk(cfg, heap', threads[u]) {
      PcFrame(cfg, heap, heap', threads[u]);
    }
  }

  // ---------------------------------------------------------------- places

  /** Moving objects to one place, and nothing else, keeps the record right. */
  lemma LocMoved(lists: seq<Central>, threads: seq<Pc>, lists': seq<Central>, threads': seq<Pc>, loc: map<Obj, Place>,
                 moved: seq<Obj>, q: Place)
    requires LocInv(lists, threads, loc) && forall o :: o in moved ==> o in loc
    requires forall p, o {:trigger At(lists', threads', p, o)} {:trigger At(lists, threads, p, o)} ::
               At(lists', threads', p, o) <==> if o in moved then p == q && q != Out else At(lists, threads, p, o)
    ensures LocInv(lists', threads', Relabel(loc, moved, q))
  {
    hide At;
    var loc' := Relabel(loc, moved, q);
    forall o | o in loc' && loc'[o] != Out ensures At(lists', threads', loc'[o], o) {
      if o !in moved {
        assert At(lists, threads, loc[o], o);
      }
    }
  }

  lemma LocSame(lists: seq<Central>, threads: seq<Pc>, lists': seq<Central>, threads': seq<Pc>, loc: map<Obj, Place>)
    requires LocInv(lists, threads, loc)
    requires forall p, o {:trigger At(lists', threads', p, o)} {:trigger At(lists, threads, p, o)} ::
               At(lists', threads', p, o) <==> At(lists, threads, p, o)
    ensures LocInv(lists', threads', loc)
  {
    hide At;
  }

  lemma LocDropped(lists: seq<Central>, threads: seq<Pc>, lists': seq<Central>, threads': seq<Pc>, loc: map<Obj, Place>, id: nat)
    requires LocInv(lists, threads, loc)
    requires forall p, o {:trigger At(lists', threads', p, o)} {:trigger At(lists, threads, p, o)} ::
               At(lists', threads', p, o) <==> At(lists, threads, p, o) && o.span != id
    ensures LocInv(lists', threads', map x | x in loc && x.span != id :: loc[x])
  {
    hide At;
  }

  lemma LocAdded(lists: seq<Central>, threads: seq<Pc>, lists': seq<Central>, threads': seq<Pc>, loc: map<Obj, Place>,
                 added: seq<Obj>, q: Place)
    requires LocInv(lists, threads, loc) && q != Out && forall o :: o in added ==> o !in loc
    requires forall p, o {:trigger At(lists', threads', p, o)} {:trigger At(lists, threads, p, o)} ::
               At(lists', threads', p, o) <==> if o in added then p == q else At(lists, threads, p, o)
    ensures LocInv(lists', threads', loc + map x | x in added :: q)
  {
    hide At;
    var loc' := loc + map x | x in added :: q;
    forall o | o in loc' && loc'[o] != Out ensures At(lists', threads', loc'[o], o) {
      if o !in added {
        assert At(lists, threads, loc[o], o);
      }
    }
  }

  /** A step that changes only what the thread is about to do. */
  lemma AtPc(lists: seq<Central>, threads: seq<Pc>, loc: map<Obj, Place>, t: nat, pc: Pc)
    requires LocInv(lists, threads, loc) && t < |threads| && forall o :: o in HeldBy(pc) <==> o in HeldBy(threads[t])
    ensures LocInv(lists, threads[t := pc], loc)
  {
    hide HeldBy;
    forall p, o ensures At(lists, threads[t := pc], p, o) <==> At(lists, threads, p, o) {
    }
    LocSame(lists, threads, lists, threads[t := pc], loc);
  }

  lemma AtList(lists: seq<Central>, threads: seq<Pc>, loc: map<Obj, Place>, c: nat, l: Central)
    requires LocInv(lists, threads, loc) && c < |lists|
    requires l.spans == lists[c].spans && l.slots == lists[c].slots
    ensures LocInv(lists[c := l], threads, loc)
  {
    hide HeldBy;
    forall p, o ensures At(lists[c := l], threads, p, o) <==> At(lists, threads, p, o) {
    }
    LocSame(lists, threads, lists[c := l], threads, loc);
  }

  // ---------------------------------------------------------------- steps that move no object

  lemma PcStep(cfg: Config, s: State, t: nat, pc: Pc)
    requires Inv(cfg, s) && t < |s.threads| && Holds(pc) == Holds(s.threads[t]) && PcOk(cfg, s.heap, pc)
    requires AddedBy(pc) == AddedBy(s.threads[t]) == {} && PrivateSpan(pc) == PrivateSpan(s.threads[t])
    requires forall o :: o in HeldBy(pc) <==> o in HeldBy(s.threads[t])
    ensures Inv(cfg, SetPc(s, t, pc))
  {
    if Holds(pc).Some? {
      Here(cfg, s, t);
    }
    hide LocksInv, ListsInv, HeapInv, PcsInv, LocInv, DomInv, PcOk, ListOk, HeldBy, PrivateSpan, AddedBy;
    LocksSame(s.locks, s.threads, t, pc);
    if Holds(pc).Some? {
      var c := Holds(pc).value;
      ListsWork(cfg, s.lists, s.locks, s.threads, t, pc, c, s.lists[c]);
      assert s.lists[c := s.lists[c]] == s.lists;
    } else {
      ListsWait(cfg, s.lists, s.locks, s.threads, t, pc);
    }
    HeapPc(s.lists, s.threads, s.heap, t, pc);
    PcsStep(cfg, s.heap, s.threads, t, pc);
    AtPc(s.lists, s.threads, s.loc, t, pc);
  }

  lemma DropStep(cfg: Config, s: State, t: nat, pc: Pc, c: nat)
    requires Inv(cfg, s) && t < |s.threads| && Holds(s.threads[t]) == Some(c) && Holds(pc) == None && PcOk(cfg, s.heap, pc)
    requires AddedBy(pc) == AddedBy(s.threads[t]) == {} && PrivateSpan(pc) == PrivateSpan(s.threads[t])
    requires forall o :: o in HeldBy(pc) <==> o in HeldBy(s.threads[t])
    ensures c < |s.locks| && Inv(cfg, SetPc(Unlock(s, c), t, pc))
  {
    Here(cfg, s, t);
    hide LocksInv, ListsInv, HeapInv, PcsInv, LocInv, DomInv, PcOk, ListOk, HeldBy, PrivateSpan, AddedBy;
    LocksDrop(s.locks, s.threads, t, pc, c);
    ListsWork(cfg, s.lists, s.locks, s.threads, t, pc, c, s.lists[c]);
    assert s.lists[c := s.lists[c]] == s.lists;
    HeapPc(s.lists, s.threads, s.heap, t, pc);
    PcsStep(cfg, s.heap, s.threads, t, pc);
    AtPc(s.lists, s.threads, s.loc, t, pc);
  }

  lemma EnteredSame(cfg: Config, heap: map<nat, Owner>, pc: Pc)
    requires Entered(pc).Some? && PcOk(cfg, heap, pc)
    ensures var next := Entered(pc).value;
            && Holds(pc) == None && Holds(next) == Some(pc.c) && PcOk(cfg, heap, next)
            && AddedBy(pc) == {} && AddedBy(next) == {} && PrivateSpan(next) == PrivateSpan(pc) && HeldBy(next) == HeldBy(pc)
            && Credit(next) == Credit(pc)
  {
    hide BatchIn, FullBatch, AfterOk;
  }

  lemma AcquireStep(cfg: Config, s: State, t: nat)
    requires Inv(cfg, s) && Enabled(cfg, s, Acquire(t))
    ensures Inv(cfg, Next(cfg, s, Acquire(t)))
  {
    var pc := s.threads[t];
    var next := Entered(pc).value;
    assert PcOk(cfg, s.heap, pc);
    EnteredSame(cfg, s.heap, pc);
    hide LocksInv, ListsInv, HeapInv, PcsInv, LocInv, DomInv, PcOk, HeldBy, PrivateSpan, AddedBy, Holds, Entered;
    LocksTake(s.locks, s.threads, t, next, pc.c);
    ListsWait(cfg, s.lists, s.locks, s.threads, t, next);
    HeapPc(s.lists, s.threads, s.heap, t, next);
    PcsStep(cfg, s.heap, s.threads, t, next);
    AtPc(s.lists, s.threads, s.loc, t, next);
  }

  /** A change of the slot limits of the class the thread has locked. */
  lemma CacheStep(cfg: Config, s: State, t: nat, pc: Pc, c: nat, cache: int)
    requires Inv(cfg, s) && t < |s.threads| && Holds(s.threads[t]) == Holds(pc) == Some(c) && PcOk(cfg, s.heap, pc)
    requires AddedBy(pc) == AddedBy(s.threads[t]) == {} && PrivateSpan(pc) == PrivateSpan(s.threads[t])
    requires forall o :: o in HeldBy(pc) <==> o in HeldBy(s.threads[t])
    requires c < |s.lists| && |s.lists[c].slots| <= cache <= s.lists[c].maxCache
    ensures Inv(cfg, SetPc(SetList(s, c, s.lists[c].(cache := cache)), t, pc))
  {
    var l := s.lists[c].(cache := cache);
    Here(cfg, s, t);
    NewCache(cfg, c, s.lists[c], l.slots, cache);
    hide LocksInv, ListsInv, HeapInv, PcsInv, LocInv, DomInv, PcOk, ListOk, HeldBy, PrivateSpan, AddedBy, Holds;
    LocksSame(s.locks, s.threads, t, pc);
    ListsWork(cfg, s.lists, s.locks, s.threads, t, pc, c, l);
    HeapSame(s.lists, s.threads, s.heap, t, pc, c, l);
    PcsStep(cfg, s.heap, s.threads, t, pc);
    AtList(s.lists, s.threads, s.loc, c, l);
    AtPc(s.lists[c := l], s.threads, s.loc, t, pc);
  }

  /** The slots do not touch the spans. */
  lemma NewCache(cfg: Config, c: nat, l: Central, slots: seq<seq<Obj>>, cache: int)
    requires c < |cfg.per| && c < |cfg.max| && c < |cfg.move| && ListOk(cfg, c, l, {})
    requires |slots| <= cache <= l.maxCache
    requires forall k :: 0 <= k < |slots| ==> NoDup(slots[k]) && |slots[k]| == cfg.move[c]
    ensures ListOk(cfg, c, l.(slots := slots, cache := cache), {})
  {
    hide NoDup, SpanOk, SumFree;
  }

  lemma PoppedCache(cfg: Config, c: nat, l: Central, cache: int)
    requires c < |cfg.per| && c < |cfg.max| && c < |cfg.move| && ListOk(cfg, c, l, {})
    requires l.slots != [] && |l.slots| - 1 <= cache <= l.maxCache
    ensures ListOk(cfg, c, l.(slots := l.slots[..|l.slots| - 1], cache := cache), {})
  {
    NewCache(cfg, c, l, l.slots[..|l.slots| - 1], cache);
  }

  lemma StoredCache(cfg: Config, heap: map<nat, Owner>, c: nat, l: Central, batch: seq<Obj>, cache: int)
    requires c < |cfg.per| && c < |cfg.max| && c < |cfg.move| && ListOk(cfg, c, l, {})
    requires FullBatch(cfg, heap, batch, c) && NoDup(batch) && |l.slots| < cache <= l.maxCache
    ensures ListOk(cfg, c, l.(slots := l.slots + [batch], cache := cache), {})
  {
    NewCache(cfg, c, l, l.slots + [batch], cache);
  }

  /** A thread that has nothing left in hand. */
  lemma EmptyHandsOk(cfg: Config, heap: map<nat, Owner>, c: nat)
    ensures PcOk(cfg, heap, Idle)
    ensures c < |cfg.per| ==> PcOk(cfg, heap, Releasing(c, [], Leave)) && HeldBy(Releasing(c, [], Leave)) == []
  {
  }

  // ---------------------------------------------------------------- steps that move objects

  /** Relabelling keeps the domain of the record; a slot label needs objects of the class. */
  lemma DomRelabel(cfg: Config, heap: map<nat, Owner>, loc: map<Obj, Place>, moved: seq<Obj>, q: Place)
    requires DomInv(cfg, heap, loc)
    requires q.Slot? ==> BatchIn(cfg, heap, moved, q.c)
    ensures DomInv(cfg, heap, Relabel(loc, moved, q))
  {
  }

  lemma StoreMoves(lists: seq<Central>, threads: seq<Pc>, loc: map<Obj, Place>, t: nat, pc: Pc, c: nat, l: Central, batch: seq<Obj>)
    requires LocInv(lists, threads, loc) && t < |threads| && c < |lists|
    requires HeldBy(threads[t]) == batch && HeldBy(pc) == []
    requires l.spans == lists[c].spans && l.slots == lists[c].slots + [batch]
    ensures LocInv(lists[c := l], threads[t := pc], Relabel(loc, batch, Slot(c, |lists[c].slots|)))
  {
    hide HeldBy;
    var q := Slot(c, |lists[c].slots|);
    forall o | o in batch ensures o in loc && loc[o] == Held(t) {
      assert At(lists, threads, Held(t), o);
    }
    forall p, o ensures At(lists[c := l], threads[t := pc], p, o) <==> if o in batch then p == q else At(lists, threads, p, o) {
      if o in batch {
        assert At(lists, threads, p, o) ==> p == Held(t);
        assert At(lists[c := l], threads[t := pc], p, o) && p != q ==> At(lists, threads, p, o);
      }
    }
    LocMoved(lists, threads, lists[c := l], threads[t := pc], loc, batch, q);
  }

  lemma StoreStep(cfg: Config, s: State, t: nat, c: nat, batch: seq<Obj>, cache: int)
    requires Inv(cfg, s) && t < |s.threads| && Holds(s.threads[t]) == Some(c) && HeldBy(s.threads[t]) == batch
    requires AddedBy(s.threads[t]) == {} && PrivateSpan(s.threads[t]) == None
    requires FullBatch(cfg, s.heap, batch, c) && NoDup(batch)
    requires c < |s.lists| && |s.lists[c].slots| < cache <= s.lists[c].maxCache
    ensures Inv(cfg, Store(s, t, c, batch, cache))
  {
    hide LocksInv, ListsInv, HeapInv, PcsInv, LocInv, DomInv, PcOk, ListOk, HeldBy, Relabel;
    var l := s.lists[c].(slots := s.lists[c].slots + [batch], cache := cache);
    var pc := Releasing(c, [], Leave);
    Here(cfg, s, t);
    EmptyHandsOk(cfg, s.heap, c);
    StoredCache(cfg, s.heap, c, s.lists[c], batch, cache);
    DomRelabel(cfg, s.heap, s.loc, batch, Slot(c, |s.lists[c].slots|));
    LocksSame(s.locks, s.threads, t, pc);
    ListsWork(cfg, s.lists, s.locks, s.threads, t, pc, c, l);
    HeapSame(s.lists, s.threads, s.heap, t, pc, c, l);
    PcsStep(cfg, s.heap, s.threads, t, pc);
    StoreMoves(s.lists, s.threads, s.loc, t, pc, c, l, batch);
  }

  lemma PopMoves(lists: seq<Central>, threads: seq<Pc>, loc: map<Obj, Place>, t: nat, pc: Pc, c: nat, l: Central, batch: seq<Obj>)
    requires LocInv(lists, threads, loc) && t < |threads| && c < |lists|
    requires l.spans == lists[c].spans && lists[c].slots == l.slots + [batch]
    requires forall o :: o in HeldBy(pc) <==> o in batch || o in HeldBy(threads[t])
    ensures LocInv(lists[c := l], threads[t := pc], Relabel(loc, batch, Held(t)))
  {
    hide HeldBy;
    var k := |l.slots|;
    forall o | o in batch ensures o in loc && loc[o] == Slot(c, k) {
      assert At(lists, threads, Slot(c, k), o);
    }
    forall p, o
      ensures At(lists[c := l], threads[t := pc], p, o) <==> if o in batch then p == Held(t) else At(lists, threads, p, o)
    {
      if o in batch {
        assert At(lists, threads, p, o) ==> p == Slot(c, k);
        assert At(lists[c := l], threads[t := pc], p, o) && p != Held(t) ==> At(lists, threads, p, o);
      }
    }
    LocMoved(lists, threads, lists[c := l], threads[t := pc], loc, batch, Held(t));
  }

  /** The objects of a slot are distinct, of the class, and not in the thread's hands. */
  lemma SlotObjects(cfg: Config, s: State, t: nat, c: nat, k: nat)
    requires Inv(cfg, s) && t < |s.threads| && c < |s.lists| && k < |s.lists[c].slots|
    ensures c < |cfg.per| && NoDup(s.lists[c].slots[k]) && BatchIn(cfg, s.heap, s.lists[c].slots[k], c)
    ensures forall o :: o in s.lists[c].slots[k] ==> o !in HeldBy(s.threads[t])
  {
    hide HeapInv, PcsInv, LocksInv, HeldBy, CentralOk, IsFree, InUse;
    var batch := s.lists[c].slots[k];
    assert ListOk(cfg, c, s.lists[c], Unused(s.locks, s.threads, c));
    hide ListsInv;
    forall o | o in batch ensures OfClass(cfg, s.heap, o, c) && o !in HeldBy(s.threads[t]) {
      assert At(s.lists, s.threads, Slot(c, k), o);
      assert At(s.lists, s.threads, Held(t), o) <==> o in HeldBy(s.threads[t]);
    }
  }

  lemma Joined<T>(a: seq<T>, b: seq<T>)
    requires NoDup(a) && NoDup(b) && forall o :: o in a ==> o !in b
    ensures NoDup(a + b) && forall o :: o in a + b <==> o in a || o in b
  {
    var both := a + b;
    forall i, j | 0 <= i < j < |both| ensures both[i] != both[j] {
      if i < |a| <= j {
        assert both[i] in a && both[j] in b;
      }
    }
  }

  lemma PopStep(cfg: Config, s: State, t: nat, c: nat, cache: int, pc: Pc)
    requires Inv(cfg, s) && t < |s.threads| && Holds(s.threads[t]) == Holds(pc) == Some(c)
    requires AddedBy(s.threads[t]) == AddedBy(pc) == {} && PrivateSpan(s.threads[t]) == PrivateSpan(pc) == None
    requires c < |s.lists| && s.lists[c].slots != [] && |s.lists[c].slots| - 1 <= cache <= s.lists[c].maxCache
    requires PcOk(cfg, s.heap, pc)
    requires forall o :: o in HeldBy(pc) <==> o in s.lists[c].slots[|s.lists[c].slots| - 1] || o in HeldBy(s.threads[t])
    ensures Inv(cfg, Pop(s, t, c, cache, pc))
  {
    hide LocksInv, ListsInv, HeapInv, PcsInv, LocInv, DomInv, PcOk, ListOk, HeldBy, Relabel, AddedBy, PrivateSpan, Holds;
    var last := |s.lists[c].slots| - 1;
    var batch := s.lists[c].slots[last];
    var l := s.lists[c].(slots := s.lists[c].slots[..last], cache := cache);
    assert s.lists[c].slots == l.slots + [batch];
    Here(cfg, s, t);
    PoppedCache(cfg, c, s.lists[c], cache);
    DomRelabel(cfg, s.heap, s.loc, batch, Held(t));
    LocksSame(s.locks, s.threads, t, pc);
    ListsWork(cfg, s.lists, s.locks, s.threads, t, pc, c, l);
    HeapSame(s.lists, s.threads, s.heap, t, pc, c, l);
    PcsStep(cfg, s.heap, s.threads, t, pc);
    PopMoves(s.lists, s.threads, s.loc, t, pc, c, l, batch);
  }

  lemma TakeMoves(lists: seq<Central>, threads: seq<Pc>, loc: map<Obj, Place>, t: nat, pc: Pc, c: nat, l: Central, got: seq<Obj>)
    requires LocInv(lists, threads, loc) && t < |threads| && c < |lists|
    requires Fetches(lists[c], l, got) && HeldBy(threads[t]) == [] && HeldBy(pc) == got
    ensures LocInv(lists[c := l], threads[t := pc], Relabel(loc, got, Held(t)))
  {
    hide HeldBy, IsFree;
    forall o | o in got ensures o in loc && loc[o] == Free(c) {
      assert At(lists, threads, Free(c), o);
    }
    forall p, o
      ensures At(lists[c := l], threads[t := pc], p, o) <==> if o in got then p == Held(t) else At(lists, threads, p, o)
    {
      if o in got {
        assert At(lists, threads, p, o) ==> p == Free(c);
        assert At(lists[c := l], threads[t := pc], p, o) && p != Held(t) ==> At(lists, threads, p, o);
      }
    }
    LocMoved(lists, threads, lists[c := l], threads[t := pc], loc, got, Held(t));
  }

  /** Objects of a listed span are of its class. */
  lemma FreeOfClass(cfg: Config, s: State, c: nat, o: Obj)
    requires Inv(cfg, s) && c < |s.lists| && IsFree(s.lists[c], o)
    ensures OfClass(cfg, s.heap, o, c)
  {
    hide LocksInv, ListsInv, PcsInv;
    assert At(s.lists, s.threads, Free(c), o);
    assert o.span in s.lists[c].spans;
  }

  lemma TakeOk(cfg: Config, s: State, t: nat, c: nat, n: nat)
    requires Inv(cfg, s) && t < |s.threads| && (s.threads[t].Fetching? || s.threads[t].Refetch?)
    requires c == s.threads[t].c && n == s.threads[t].n
    ensures c < |s.lists| && c < |cfg.per| && CentralOk(s.lists[c], cfg.per[c])
    ensures var (l, got) := FetchAll(s.lists[c], n, cfg.per[c]);
            && ListOk(cfg, c, l, {}) && Fetches(s.lists[c], l, got) && PcOk(cfg, s.heap, Fetched(c, got))
  {
    hide Inv, CentralOk, FetchAll, IsFree, Fetches, ListOk, PcOk, OfClass;
    Here(cfg, s, t);
    WantsSome(cfg, s, t);
    FetchAllFits(cfg, c, s.lists[c], n, AddedBy(s.threads[t]));
    var all := FetchAll(s.lists[c], n, cfg.per[c]);
    forall o | o in all.1 ensures OfClass(cfg, s.heap, o, c) {
      WasFree(s.lists[c], all.0, all.1, o);
      FreeOfClass(cfg, s, c, o);
    }
    FetchedOk(cfg, s.heap, c, s.lists[c], all.0, all.1);
  }

  lemma WantsSome(cfg: Config, s: State, t: nat)
    requires Inv(cfg, s) && t < |s.threads| && (s.threads[t].Fetching? || s.threads[t].Refetch?)
    ensures 0 < s.threads[t].n
  {
    ThreadOk(cfg, s, t);
  }

  lemma WasFree(l: Central, l': Central, got: seq<Obj>, o: Obj)
    requires Fetches(l, l', got) && o in got
    ensures IsFree(l, o)
  {
  }

  lemma FetchedOk(cfg: Config, heap: map<nat, Owner>, c: nat, l: Central, l': Central, got: seq<Obj>)
    requires Fetches(l, l', got) && c < |cfg.per| && forall o :: o in got ==> OfClass(cfg, heap, o, c)
    ensures PcOk(cfg, heap, Fetched(c, got))
  {
    hide IsFree, OfClass;
  }

  lemma FetchAllFits(cfg: Config, c: nat, l: Central, n: nat, unused: set<nat>)
    requires c < |cfg.per| && c < |cfg.max| && c < |cfg.move| && ListOk(cfg, c, l, unused) && 0 < n
    ensures CentralOk(l, cfg.per[c])
    ensures var (l', got) := FetchAll(l, n, cfg.per[c]); ListOk(cfg, c, l', {}) && Fetches(l, l', got)
  {
    hide CentralOk, FetchAll, IsFree;
    FetchAllOk(l, n, cfg.per[c], unused);
  }

  lemma TakeStepOk(cfg: Config, s: State, t: nat, c: nat, l: Central, got: seq<Obj>)
    requires Inv(cfg, s) && t < |s.threads| && (s.threads[t].Fetching? || s.threads[t].Refetch?) && c == s.threads[t].c
    requires c < |s.lists| && c < |cfg.per| && c < |cfg.max| && c < |cfg.move|
    requires ListOk(cfg, c, l, {}) && Fetches(s.lists[c], l, got) && PcOk(cfg, s.heap, Fetched(c, got))
    ensures Inv(cfg, TakeStep(s, t, c, l, got))
  {
    hide LocksInv, ListsInv, HeapInv, PcsInv, LocInv, DomInv, PcOk, ListOk, Relabel, IsFree;
    var pc := Fetched(c, got);
    DomRelabel(cfg, s.heap, s.loc, got, Held(t));
    LocksSame(s.locks, s.threads, t, pc);
    ListsWork(cfg, s.lists, s.locks, s.threads, t, pc, c, l);
    HeapSame(s.lists, s.threads, s.heap, t, pc, c, l);
    PcsStep(cfg, s.heap, s.threads, t, pc);
    TakeMoves(s.lists, s.threads, s.loc, t, pc, c, l, got);
  }

  // ---------------------------------------------------------------- releasing an object

  lemma TailHeld(rest: seq<Obj>, tail: seq<Obj>)
    requires rest != [] && NoDup(rest + tail)
    ensures NoDup(rest[1..] + tail) && rest[0] !in rest[1..] + tail
    ensures forall o :: o in rest + tail <==> o == rest[0] || o in rest[1..] + tail
  {
    assert rest + tail == [rest[0]] + (rest[1..] + tail);
    HeadOnce(rest + tail);
    assert (rest + tail)[1..] == rest[1..] + tail;
  }

  lemma ReleaseMoves(lists: seq<Central>, threads: seq<Pc>, loc: map<Obj, Place>, t: nat, pc: Pc, c: nat, l: Central, o: Obj)
    requires LocInv(lists, threads, loc) && t < |threads| && c < |lists|
    requires forall x :: x in HeldBy(threads[t]) <==> x == o || x in HeldBy(pc)
    requires o !in HeldBy(pc) && l.slots == lists[c].slots
    requires forall x: Obj :: IsFree(l, x) <==> IsFree(lists[c], x) || x == o
    ensures LocInv(lists[c := l], threads[t := pc], Relabel(loc, [o], Free(c)))
  {
    hide HeldBy, IsFree;
    assert At(lists, threads, Held(t), o);
    forall p, x
      ensures At(lists[c := l], threads[t := pc], p, x) <==> if x in [o] then p == Free(c) else At(lists, threads, p, x)
    {
      if x == o {
        assert At(lists, threads, p, x) ==> p == Held(t);
        assert At(lists[c := l], threads[t := pc], p, x) && p != Free(c) ==> At(lists, threads, p, x);
      }
    }
    LocMoved(lists, threads, lists[c := l], threads[t := pc], loc, [o], Free(c));
  }

  lemma DropMoves(lists: seq<Central>, threads: seq<Pc>, loc: map<Obj, Place>, t: nat, pc: Pc, c: nat, l: Central, o: Obj)
    requires LocInv(lists, threads, loc) && t < |threads| && c < |lists|
    requires forall x :: x in HeldBy(threads[t]) <==> x == o || x in HeldBy(pc)
    requires o !in HeldBy(pc) && l.slots == lists[c].slots
    requires forall x: Obj :: IsFree(l, x) <==> IsFree(lists[c], x) && x.span != o.span
    requires forall x :: x in loc && x.span == o.span && x != o ==> loc[x] == Free(c)
    ensures LocInv(lists[c := l], threads[t := pc], map x | x in loc && x.span != o.span :: loc[x])
  {
    hide HeldBy, IsFree;
    assert At(lists, threads, Held(t), o);
    forall p, x ensures At(lists[c := l], threads[t := pc], p, x) <==> At(lists, threads, p, x) && x.span != o.span {
      if x.span == o.span {
        assert At(lists, threads, p, x) ==> p == if x == o then Held(t) else Free(c);
        assert At(lists[c := l], threads[t := pc], p, x) ==> At(lists, threads, p, x);
        assert !At(lists[c := l], threads[t := pc], Free(c), x);
        assert x == o ==> !At(lists[c := l], threads[t := pc], Held(t), x);
      }
    }
    LocDropped(lists, threads, lists[c := l], threads[t := pc], loc, o.span);
  }

  /** Objects of a span that is about to go to the page heap are free, all but the one released. */
  lemma OthersFree(cfg: Config, s: State, t: nat, o: Obj, x: Obj)
    requires Inv(cfg, s) && t < |s.threads| && s.threads[t].Releasing? && o in s.threads[t].rest
    requires var c := s.threads[t].c;
             && c < |s.lists| && c < |cfg.per|
             && forall y: Obj :: y.span == o.span && y.index < cfg.per[c] && y != o ==> IsFree(s.lists[c], y)
    requires x in s.loc && x.span == o.span && x != o
    ensures s.loc[x] == Free(s.threads[t].c)
  {
    var c := s.threads[t].c;
    HeldHere(cfg, s, t, o);
    hide LocksInv, ListsInv, PcsInv, HeapInv;
    assert x.index < cfg.per[c];
    assert At(s.lists, s.threads, Free(c), x);
  }

  /** What a release leaves of the class. */
  ghost predicate Released(cfg: Config, c: nat, l: Central, o: Obj, l': Central)
    requires c < |cfg.per| && c < |cfg.max| && c < |cfg.move| && o.span in l.spans
  {
    && ListOk(cfg, c, l', {}) && l'.slots == l.slots
    && l'.spans.Keys == (if Drops(l, o) then l.spans.Keys - {o.span} else l.spans.Keys)
    && (Drops(l, o) ==> forall x: Obj :: x.span == o.span && x.index < cfg.per[c] && x != o ==> IsFree(l, x))
    && forall x: Obj :: IsFree(l', x) <==> if Drops(l, o) then IsFree(l, x) && x.span != o.span else IsFree(l, x) || x == o
  }

  lemma ReleasedBy(cfg: Config, c: nat, l: Central, o: Obj)
    requires c < |cfg.per| && c < |cfg.max| && c < |cfg.move| && ListOk(cfg, c, l, {})
    requires o.span in l.spans && o.index < cfg.per[c] && !IsFree(l, o)
    ensures Released(cfg, c, l, o, ReleaseOne(l, o, cfg.per[c]))
  {
    hide CentralOk, IsFree, ReleaseOne, InUse;
    ReleaseEffect(l, o, cfg.per[c]);
  }

  lemma ThreadOk(cfg: Config, s: State, t: nat)
    requires Inv(cfg, s) && t < |s.threads|
    ensures PcOk(cfg, s.heap, s.threads[t])
  {
  }

  /** The class after a release by a thread that has its lock. */
  lemma ReleaseHere(cfg: Config, s: State, t: nat)
    requires Inv(cfg, s) && t < |s.threads| && s.threads[t].Releasing? && s.threads[t].rest != []
    ensures var pc := s.threads[t]; var c, o := pc.c, pc.rest[0];
            && c < |s.lists| && c < |s.locks| && c < |cfg.per| && c < |cfg.max| && c < |cfg.move|
            && o.span in s.lists[c].spans && OfClass(cfg, s.heap, o, c)
            && Released(cfg, c, s.lists[c], o, ReleaseOne(s.lists[c], o, cfg.per[c]))
  {
    hide LocksInv, ListsInv, HeapInv, PcsInv, LocInv, DomInv, CentralOk, IsFree, ReleaseOne, Released, OfClass, ListOk;
    var pc := s.threads[t];
    HeldHere(cfg, s, t, pc.rest[0]);
    Here(cfg, s, t);
    assert AddedBy(pc) == {};
    ReleasedBy(cfg, pc.c, s.lists[pc.c], pc.rest[0]);
  }

  /** What the thread still holds after a release. */
  lemma RestHeld(cfg: Config, heap: map<nat, Owner>, c: nat, rest: seq<Obj>, after: After)
    requires rest != [] && PcOk(cfg, heap, Releasing(c, rest, after))
    ensures var o, held := rest[0], rest[1..] + AfterBatch(after);
            && o !in held && (forall x :: x in HeldBy(Releasing(c, rest, after)) <==> x == o || x in held)
            && PcOk(cfg, heap, Releasing(c, rest[1..], after))
  {
    TailHeld(rest, AfterBatch(after));
    hide NoDup, OfClass;
  }

  lemma KeptClass(cfg: Config, s: State, t: nat, c: nat, rest: seq<Obj>, after: After, l: Central)
    requires Inv(cfg, s) && t < |s.threads| && s.threads[t] == Releasing(c, rest, after) && rest != []
    requires c < |s.lists| && c < |cfg.per| && c < |cfg.max| && c < |cfg.move| && rest[0].span in s.lists[c].spans
    requires !Drops(s.lists[c], rest[0]) && Released(cfg, c, s.lists[c], rest[0], l)
    ensures var pc := Releasing(c, rest[1..], after);
            && LocksInv(s.locks, s.threads[t := pc]) && ListsInv(cfg, s.lists[c := l], s.locks, s.threads[t := pc])
            && HeapInv(s.lists[c := l], s.threads[t := pc], s.heap)
  {
    hide LocksInv, ListsInv, HeapInv, PcsInv, LocInv, DomInv, ListOk, IsFree;
    var pc := Releasing(c, rest[1..], after);
    LocksSame(s.locks, s.threads, t, pc);
    ListsWork(cfg, s.lists, s.locks, s.threads, t, pc, c, l);
    HeapSame(s.lists, s.threads, s.heap, t, pc, c, l);
  }

  lemma KeptObjects(cfg: Config, s: State, t: nat, c: nat, rest: seq<Obj>, after: After, l: Central)
    requires Inv(cfg, s) && t < |s.threads| && s.threads[t] == Releasing(c, rest, after) && rest != []
    requires c < |s.lists| && c < |cfg.per| && c < |cfg.max| && c < |cfg.move| && rest[0].span in s.lists[c].spans
    requires !Drops(s.lists[c], rest[0]) && Released(cfg, c, s.lists[c], rest[0], l)
    ensures var pc := Releasing(c, rest[1..], after);
            && PcsInv(cfg, s.heap, s.threads[t := pc])
            && LocInv(s.lists[c := l], s.threads[t := pc], Relabel(s.loc, [rest[0]], Free(c)))
            && DomInv(cfg, s.heap, Relabel(s.loc, [rest[0]], Free(c)))
  {
    hide LocksInv, ListsInv, HeapInv, PcsInv, LocInv, DomInv, ListOk, PcOk, IsFree, Relabel;
    var pc := Releasing(c, rest[1..], after);
    ThreadOk(cfg, s, t);
    RestHeld(cfg, s.heap, c, rest, after);
    PcsStep(cfg, s.heap, s.threads, t, pc);
    DomRelabel(cfg, s.heap, s.loc, [rest[0]], Free(c));
    ReleaseMoves(s.lists, s.threads, s.loc, t, pc, c, l, rest[0]);
  }

  lemma DroppedClass(cfg: Config, s: State, t: nat, c: nat, rest: seq<Obj>, after: After, l: Central)
    requires Inv(cfg, s) && t < |s.threads| && s.threads[t] == Releasing(c, rest, after) && rest != []
    requires c < |s.lists| && c < |s.locks| && c < |cfg.per| && c < |cfg.max| && c < |cfg.move|
    requires rest[0].span in s.lists[c].spans && Drops(s.lists[c], rest[0]) && Released(cfg, c, s.lists[c], rest[0], l)
    ensures var pc := Deleting(c, rest[1..], after, rest[0].span);
            && LocksInv(s.locks[c := None], s.threads[t := pc])
            && ListsInv(cfg, s.lists[c := l], s.locks[c := None], s.threads[t := pc])
            && HeapInv(s.lists[c := l], s.threads[t := pc], s.heap[rest[0].span := Private(t)])
  {
    hide LocksInv, ListsInv, HeapInv, PcsInv, LocInv, DomInv, ListOk, IsFree;
    var pc := Deleting(c, rest[1..], after, rest[0].span);
    LocksDrop(s.locks, s.threads, t, pc, c);
    ListsWork(cfg, s.lists, s.locks, s.threads, t, pc, c, l);
    HeapDropped(s.lists, s.threads, s.heap, t, pc, c, l, rest[0].span);
  }

  lemma DroppedObjects(cfg: Config, s: State, t: nat, c: nat, rest: seq<Obj>, after: After, l: Central)
    requires Inv(cfg, s) && t < |s.threads| && s.threads[t] == Releasing(c, rest, after) && rest != []
    requires c < |s.lists| && c < |cfg.per| && c < |cfg.max| && c < |cfg.move| && rest[0].span in s.lists[c].spans
    requires Drops(s.lists[c], rest[0]) && Released(cfg, c, s.lists[c], rest[0], l)
    ensures var o := rest[0]; var pc := Deleting(c, rest[1..], after, o.span);
            && PcsInv(cfg, s.heap[o.span := Private(t)], s.threads[t := pc])
            && LocInv(s.lists[c := l], s.threads[t := pc], map x | x in s.loc && x.span != o.span :: s.loc[x])
            && DomInv(cfg, s.heap[o.span := Private(t)], map x | x in s.loc && x.span != o.span :: s.loc[x])
  {
    hide LocksInv, ListsInv, HeapInv, PcsInv, LocInv, DomInv, ListOk, PcOk, IsFree, HeldBy, OfClass;
    var o := rest[0];
    var pc := Deleting(c, rest[1..], after, o.span);
    ThreadOk(cfg, s, t);
    RestHeld(cfg, s.heap, c, rest, after);
    forall x | x in s.loc && x.span == o.span && x != o ensures s.loc[x] == Free(c) {
      OthersFree(cfg, s, t, o, x);
    }
    DropPcs(cfg, s, t, pc, c, o);
    DomDropped(cfg, s.heap, s.loc, o.span, t);
    DroppedHeld(c, rest[1..], after, o.span);
    DropMoves(s.lists, s.threads, s.loc, t, pc, c, l, o);
  }

  lemma ReleaseNextStep(cfg: Config, s: State, t: nat)
    requires Inv(cfg, s) && Enabled(cfg, s, ReleaseNext(t))
    ensures Inv(cfg, Next(cfg, s, ReleaseNext(t)))
  {
    var Releasing(c, rest, after) := s.threads[t];
    hide LocksInv, ListsInv, HeapInv, PcsInv, LocInv, DomInv, ListOk, PcOk, IsFree, HeldBy, OfClass, ReleaseOne, Released, Relabel;
    ReleaseHere(cfg, s, t);
    var l := ReleaseOne(s.lists[c], rest[0], cfg.per[c]);
    if Drops(s.lists[c], rest[0]) {
      DroppedClass(cfg, s, t, c, rest, after, l);
      DroppedObjects(cfg, s, t, c, rest, after, l);
    } else {
      KeptClass(cfg, s, t, c, rest, after, l);
      KeptObjects(cfg, s, t, c, rest, after, l);
    }
  }

  lemma DomDropped(cfg: Config, heap: map<nat, Owner>, loc: map<Obj, Place>, id: nat, t: nat)
    requires DomInv(cfg, heap, loc)
    ensures DomInv(cfg, heap[id := Private(t)], map x | x in loc && x.span != id :: loc[x])
  {
  }

  lemma DroppedHeld(c: nat, rest: seq<Obj>, after: After, id: nat)
    ensures HeldBy(Deleting(c, rest, after, id)) == HeldBy(Releasing(c, rest, after))
    ensures HeldBy(Deleting(c, rest[..], after, id)) == rest + AfterBatch(after)
  {
    assert rest[..] == rest;
  }

  lemma DropPcs(cfg: Config, s: State, t: nat, pc: Pc, c: nat, o: Obj)
    requires Inv(cfg, s) && t < |s.threads| && s.threads[t].Releasing? && s.threads[t].rest != [] && o == s.threads[t].rest[0]
    requires c == s.threads[t].c && pc == Deleting(c, s.threads[t].rest[1..], s.threads[t].after, o.span)
    requires forall x :: x in s.loc && x.span == o.span && x != o ==> s.loc[x] == Free(c)
    ensures PcsInv(cfg, s.heap[o.span := Private(t)], s.threads[t := pc])
  {
    hide LocksInv, ListsInv, HeapInv, LocInv, DomInv, HeldBy, PcOk, PcsInv;
    var Releasing(_, rest, after) := s.threads[t];
    var heap' := s.heap[o.span := Private(t)];
    ThreadOk(cfg, s, t);
    RestHeld(cfg, s.heap, c, rest, after);
    forall u, x | 0 <= u < |s.threads| && x in HeldBy(s.threads[u]) && x != o
      ensures x.span in s.heap && x.span in heap' && heap'[x.span] == s.heap[x.span]
    {
      HeldElsewhere(cfg, s, u, x, o, c);
    }
    forall u | 0 <= u < |s.threads| && u != t ensures o !in HeldBy(s.threads[u]) {
      HeldOnce(cfg, s, t, u, o);
    }
    DeletingOk(cfg, s.heap, heap', c, rest[1..], after, o.span);
    PcsOf(cfg, s);
    PcsHeap(cfg, s.heap, heap', s.threads, t, pc);
  }

  lemma PcsOf(cfg: Config, s: State)
    requires Inv(cfg, s)
    ensures PcsInv(cfg, s.heap, s.threads)
  {
  }

  lemma HeldOnce(cfg: Config, s: State, t: nat, u: nat, o: Obj)
    requires Inv(cfg, s) && t < |s.threads| && u < |s.threads| && t != u && o in HeldBy(s.threads[t])
    ensures o !in HeldBy(s.threads[u])
  {
    hide LocksInv, ListsInv, HeapInv, PcsInv, HeldBy, DomInv;
    assert At(s.lists, s.threads, Held(t), o);
    assert At(s.lists, s.threads, Held(u), o) <==> o in HeldBy(s.threads[u]);
  }

  lemma DeletingOk(cfg: Config, heap: map<nat, Owner>, heap': map<nat, Owner>, c: nat, rest: seq<Obj>, after: After, id: nat)
    requires PcOk(cfg, heap, Releasing(c, rest, after))
    requires forall o :: o in rest + AfterBatch(after) ==> o.span in heap && o.span in heap' && heap'[o.span] == heap[o.span]
    ensures PcOk(cfg, heap', Deleting(c, rest, after, id))
  {
    hide NoDup, BatchIn, AfterOk;
    BothFrame(cfg, heap, heap', rest, after, c);
  }

  lemma HeldElsewhere(cfg: Config, s: State, u: nat, x: Obj, o: Obj, c: nat)
    requires Inv(cfg, s) && u < |s.threads| && x in HeldBy(s.threads[u]) && x != o
    requires forall y :: y in s.loc && y.span == o.span && y != o ==> s.loc[y] == Free(c)
    ensures x.span in s.heap && x.span != o.span
  {
    hide LocksInv, ListsInv, HeapInv, PcsInv, HeldBy;
    assert At(s.lists, s.threads, Held(u), x);
  }

  // ---------------------------------------------------------------- the page heap

  lemma DeleteStep(cfg: Config, s: State, t: nat)
    requires Inv(cfg, s) && Enabled(cfg, s, DeleteSpan(t))
    ensures Inv(cfg, Next(cfg, s, DeleteSpan(t)))
  {
    var Deleting(c, rest, after, id) := s.threads[t];
    var pc := Relock(c, rest, after);
    var heap' := s.heap - {id};
    assert s.heap[id] == Private(t) && id in s.heap;
    hide LocksInv, ListsInv, HeapInv, PcsInv, LocInv, DomInv, ListOk, HeldBy, PcOk;
    LocksSame(s.locks, s.threads, t, pc);
    ListsWait(cfg, s.lists, s.locks, s.threads, t, pc);
    HeapDeleted(s.lists, s.threads, s.heap, t, pc, id);
    HeldSurvive(cfg, s, heap');
    RelockOk(cfg, s.heap, heap', c, rest, after, id);
    ThreadOk(cfg, s, t);
    RelockHeld(c, rest, after, id);
    PcFrame(cfg, s.heap, heap', s.threads[t]);
    PcsHeap(cfg, s.heap, heap', s.threads, t, pc);
    AtPc(s.lists, s.threads, s.loc, t, pc);
    DomDeleted(cfg, s.heap, s.loc, id);
  }

  lemma RelockHeld(c: nat, rest: seq<Obj>, after: After, id: nat)
    ensures HeldBy(Relock(c, rest, after)) == HeldBy(Deleting(c, rest, after, id))
  {
  }

  lemma RelockOk(cfg: Config, heap: map<nat, Owner>, heap': map<nat, Owner>, c: nat, rest: seq<Obj>, after: After, id: nat)
    ensures PcOk(cfg, heap', Deleting(c, rest, after, id)) ==> PcOk(cfg, heap', Relock(c, rest, after))
  {
  }

  /** Spans in a thread's hands have no object in anybody's hands. */
  lemma HeldSurvive(cfg: Config, s: State, heap': map<nat, Owner>)
    requires Inv(cfg, s)
    requires forall id :: id in s.heap && s.heap[id].InClass? ==> id in heap' && heap'[id] == s.heap[id]
    ensures forall u, o {:trigger o in HeldBy(s.threads[u])} :: 0 <= u < |s.threads| && o in HeldBy(s.threads[u]) ==>
              o.span in s.heap && o.span in heap' && heap'[o.span] == s.heap[o.span]
  {
    forall u, o | 0 <= u < |s.threads| && o in HeldBy(s.threads[u])
      ensures o.span in s.heap && o.span in heap' && heap'[o.span] == s.heap[o.span]
    {
      ThreadOk(cfg, s, u);
      HeldInClass(cfg, s.heap, s.threads[u], o);
    }
  }

  lemma DomDeleted(cfg: Config, heap: map<nat, Owner>, loc: map<Obj, Place>, id: nat)
    requires DomInv(cfg, heap, loc) && id in heap && heap[id].Private?
    ensures DomInv(cfg, heap - {id}, loc)
  {
  }

  lemma DomAnswered(cfg: Config, heap: map<nat, Owner>, loc: map<Obj, Place>, id: nat, t: nat)
    requires DomInv(cfg, heap, loc) && id !in heap
    ensures DomInv(cfg, heap[id := Private(t)], loc)
  {
  }

  lemma AskStep(cfg: Config, s: State, t: nat, answer: Option<nat>)
    requires Inv(cfg, s) && Enabled(cfg, s, AskHeap(t, answer))
    ensures Inv(cfg, Next(cfg, s, AskHeap(t, answer)))
  {
    var Populate(c, n) := s.threads[t];
    var pc := Populated(c, n, answer);
    ThreadOk(cfg, s, t);
    if answer.None? {
      PcStep(cfg, s, t, pc);
    } else {
      var id := answer.value;
      var heap' := s.heap[id := Private(t)];
      assert PcOk(cfg, heap', pc);
      assert HeldBy(pc) == HeldBy(s.threads[t]) == [];
      hide LocksInv, ListsInv, HeapInv, PcsInv, LocInv, DomInv, ListOk, HeldBy, PcOk;
      LocksSame(s.locks, s.threads, t, pc);
      ListsWait(cfg, s.lists, s.locks, s.threads, t, pc);
      HeapAnswered(s.lists, s.threads, s.heap, t, pc, id);
      HeldSurvive(cfg, s, heap');
      PcsHeap(cfg, s.heap, heap', s.threads, t, pc);
      AtPc(s.lists, s.threads, s.loc, t, pc);
      DomAnswered(cfg, s.heap, s.loc, id, t);
    }
  }

  lemma ListedMoves(lists: seq<Central>, threads: seq<Pc>, loc: map<Obj, Place>, t: nat, pc: Pc, c: nat, l: Central, added: seq<Obj>)
    requires LocInv(lists, threads, loc) && t < |threads| && c < |lists| && HeldBy(threads[t]) == HeldBy(pc) == []
    requires l.slots == lists[c].slots && forall o :: o in added ==> o !in loc
    requires forall x: Obj :: IsFree(l, x) <==> IsFree(lists[c], x) || x in added
    ensures LocInv(lists[c := l], threads[t := pc], loc + map x | x in added :: Free(c))
  {
    hide HeldBy, IsFree;
    forall p, o
      ensures At(lists[c := l], threads[t := pc], p, o) <==> if o in added then p == Free(c) else At(lists, threads, p, o)
    {
      if o in added {
        assert !At(lists, threads, p, o);
        assert At(lists[c := l], threads[t := pc], p, o) && p != Free(c) ==> At(lists, threads, p, o);
      }
    }
    LocAdded(lists, threads, lists[c := l], threads[t := pc], loc, added, Free(c));
  }

  lemma DomListed(cfg: Config, heap: map<nat, Owner>, loc: map<Obj, Place>, id: nat, c: nat)
    requires DomInv(cfg, heap, loc) && id in heap && heap[id].Private? && c < |cfg.per|
    ensures forall o :: o in Objects(id, cfg.per[c]) <==> o.span == id && o.index < cfg.per[c]
    ensures forall o :: o in Objects(id, cfg.per[c]) ==> o !in loc
    ensures DomInv(cfg, heap[id := InClass(c)], loc + map x | x in Objects(id, cfg.per[c]) :: Free(c))
  {
    forall o: Obj ensures o in Objects(id, cfg.per[c]) <==> o.span == id && o.index < cfg.per[c] {
      if o.span == id && o.index < cfg.per[c] {
        assert Objects(id, cfg.per[c])[o.index] == o;
      }
    }
  }

  /** Listing a new span: it is the first with free objects, and the only one with none in use. */
  lemma ListedHere(cfg: Config, s: State, t: nat, c: nat, id: nat)
    requires Inv(cfg, s) && t < |s.threads| && s.threads[t].Refill? && s.threads[t].got == Some(id) && c == s.threads[t].c
    ensures c < |s.lists| && c < |cfg.per| && c < |cfg.max| && c < |cfg.move|
    ensures id in s.heap && s.heap[id] == Private(t)
    ensures var l := AddSpan(s.lists[c], id, cfg.per[c]);
            && ListOk(cfg, c, l, {id}) && l.spans.Keys == s.lists[c].spans.Keys + {id} && l.slots == s.lists[c].slots
            && forall x: Obj :: IsFree(l, x) <==> IsFree(s.lists[c], x) || (x.span == id && x.index < cfg.per[c])
  {
    hide LocInv, DomInv, PcsInv, ListOk, AddSpan, IsFree;
    Here(cfg, s, t);
    assert id in s.heap && s.heap[id] == Private(t);
    assert id !in s.lists[c].spans;
    assert 0 < cfg.per[c];
    hide LocksInv, ListsInv, HeapInv;
    AddedFits(cfg, c, s.lists[c], id);
  }

  lemma AddedFits(cfg: Config, c: nat, l: Central, id: nat)
    requires c < |cfg.per| && c < |cfg.max| && c < |cfg.move| && ListOk(cfg, c, l, {}) && 0 < cfg.per[c] && id !in l.spans
    ensures var l' := AddSpan(l, id, cfg.per[c]);
            && ListOk(cfg, c, l', {id}) && l'.spans.Keys == l.spans.Keys + {id} && l'.slots == l.slots
            && forall x: Obj :: IsFree(l', x) <==> IsFree(l, x) || (x.span == id && x.index < cfg.per[c])
  {
    hide CentralOk, IsFree, InUse;
    AddSpanEffect(l, id, cfg.per[c]);
  }

  lemma RefetchOk(cfg: Config, heap: map<nat, Owner>, pc: Pc)
    requires pc.Refill? && PcOk(cfg, heap, pc)
    ensures PcOk(cfg, heap, Refetch(pc.c, pc.n, None))
  {
  }

  lemma ListSpanStep(cfg: Config, s: State, t: nat)
    requires Inv(cfg, s) && Enabled(cfg, s, ListSpan(t))
    ensures Inv(cfg, Next(cfg, s, ListSpan(t)))
  {
    hide Inv, ListOk, PcOk;
    var pc := s.threads[t];
    ThreadOk(cfg, s, t);
    Here(cfg, s, t);
    if pc.got.None? {
      RefetchOk(cfg, s.heap, pc);
      PcStep(cfg, s, t, Refetch(pc.c, pc.n, None));
    } else {
      ListedSpan(cfg, s, t, pc.c, pc.n, pc.got.value);
    }
  }

  lemma ListedSpan(cfg: Config, s: State, t: nat, c: nat, n: nat, id: nat)
    requires Inv(cfg, s) && t < |s.threads| && s.threads[t] == Refill(c, n, Some(id)) && 0 < n
    requires c < |s.lists| && c < |cfg.per|
    ensures Inv(cfg, ListStep(cfg, s, t))
  {
    hide LocksInv, ListsInv, HeapInv, PcsInv, LocInv, DomInv, AddSpan, Objects;
    ListedClass(cfg, s, t, c, n, id);
    ListedObjects(cfg, s, t, c, n, id);
  }

  lemma ListedClass(cfg: Config, s: State, t: nat, c: nat, n: nat, id: nat)
    requires Inv(cfg, s) && t < |s.threads| && s.threads[t] == Refill(c, n, Some(id)) && c < |s.lists| && c < |cfg.per|
    ensures var l, pc := AddSpan(s.lists[c], id, cfg.per[c]), Refetch(c, n, Some(id));
            && LocksInv(s.locks, s.threads[t := pc]) && ListsInv(cfg, s.lists[c := l], s.locks, s.threads[t := pc])
            && HeapInv(s.lists[c := l], s.threads[t := pc], s.heap[id := InClass(c)])
  {
    hide LocksInv, ListsInv, HeapInv, PcsInv, LocInv, DomInv, ListOk, IsFree, AddSpan;
    ListedHere(cfg, s, t, c, id);
    var l, pc := AddSpan(s.lists[c], id, cfg.per[c]), Refetch(c, n, Some(id));
    LocksSame(s.locks, s.threads, t, pc);
    ListsWork(cfg, s.lists, s.locks, s.threads, t, pc, c, l);
    HeapListed(s.lists, s.threads, s.heap, t, pc, c, l, id);
  }

  lemma ListedObjects(cfg: Config, s: State, t: nat, c: nat, n: nat, id: nat)
    requires Inv(cfg, s) && t < |s.threads| && s.threads[t] == Refill(c, n, Some(id)) && 0 < n
    requires c < |s.lists| && c < |cfg.per|
    ensures var l, pc := AddSpan(s.lists[c], id, cfg.per[c]), Refetch(c, n, Some(id));
            var loc := s.loc + map x | x in Objects(id, cfg.per[c]) :: Free(c);
            && PcsInv(cfg, s.heap[id := InClass(c)], s.threads[t := pc])
            && LocInv(s.lists[c := l], s.threads[t := pc], loc) && DomInv(cfg, s.heap[id := InClass(c)], loc)
  {
    hide LocksInv, ListsInv, HeapInv, PcsInv, LocInv, DomInv, ListOk, PcOk, HeldBy, IsFree, AddSpan, Objects;
    ListedHere(cfg, s, t, c, id);
    var l, pc := AddSpan(s.lists[c], id, cfg.per[c]), Refetch(c, n, Some(id));
    var heap' := s.heap[id := InClass(c)];
    ListedPc(cfg, heap', c, n, Some(id));
    HeldSurvive(cfg, s, heap');
    PcsHeap(cfg, s.heap, heap', s.threads, t, pc);
    DomListed(cfg, s.heap, s.loc, id, c);
    ListedMoves(s.lists, s.threads, s.loc, t, pc, c, l, Objects(id, cfg.per[c]));
  }

  lemma ListedPc(cfg: Config, heap: map<nat, Owner>, c: nat, n: nat, got: Option<nat>)
    requires c < |cfg.per| && 0 < n
    ensures PcOk(cfg, heap, Refetch(c, n, got)) && HeldBy(Refetch(c, n, got)) == HeldBy(Refill(c, n, got)) == []
  {
  }

  // ---------------------------------------------------------------- objects in and out

  lemma InsertMoves(lists: seq<Central>, threads: seq<Pc>, loc: map<Obj, Place>, t: nat, pc: Pc, batch: seq<Obj>)
    requires LocInv(lists, threads, loc) && t < |threads| && HeldBy(threads[t]) == [] && HeldBy(pc) == batch
    requires forall o :: o in batch ==> o in loc && loc[o] == Out
    ensures LocInv(lists, threads[t := pc], Relabel(loc, batch, Held(t)))
  {
    hide HeldBy;
    forall p, o ensures At(lists, threads[t := pc], p, o) <==> if o in batch then p == Held(t) else At(lists, threads, p, o) {
      if o in batch {
        assert !At(lists, threads, p, o);
        assert At(lists, threads[t := pc], p, o) && p != Held(t) ==> At(lists, threads, p, o);
      }
    }
    LocMoved(lists, threads, lists, threads[t := pc], loc, batch, Held(t));
  }

  lemma InsertStep(cfg: Config, s: State, t: nat, c: nat, batch: seq<Obj>)
    requires Inv(cfg, s) && Enabled(cfg, s, BeginInsert(t, c, batch))
    ensures Inv(cfg, Next(cfg, s, BeginInsert(t, c, batch)))
  {
    var pc := Insert(c, batch);
    assert PcOk(cfg, s.heap, pc);
    hide LocksInv, ListsInv, HeapInv, PcsInv, LocInv, DomInv, ListOk, PcOk, Relabel;
    LocksSame(s.locks, s.threads, t, pc);
    ListsWait(cfg, s.lists, s.locks, s.threads, t, pc);
    HeapPc(s.lists, s.threads, s.heap, t, pc);
    PcsStep(cfg, s.heap, s.threads, t, pc);
    InsertMoves(s.lists, s.threads, s.loc, t, pc, batch);
    DomRelabel(cfg, s.heap, s.loc, batch, Held(t));
  }

  lemma ReturnMoves(lists: seq<Central>, threads: seq<Pc>, loc: map<Obj, Place>, t: nat, pc: Pc, batch: seq<Obj>)
    requires LocInv(lists, threads, loc) && t < |threads| && HeldBy(threads[t]) == batch && HeldBy(pc) == []
    ensures LocInv(lists, threads[t := pc], Relabel(loc, batch, Out))
  {
    hide HeldBy;
    forall o | o in batch ensures o in loc && loc[o] == Held(t) {
      assert At(lists, threads, Held(t), o);
    }
    forall p, o ensures At(lists, threads[t := pc], p, o) <==> if o in batch then false else At(lists, threads, p, o) {
      if o in batch {
        assert At(lists, threads, p, o) ==> p == Held(t);
        assert At(lists, threads[t := pc], p, o) ==> At(lists, threads, p, o);
      }
    }
    LocMoved(lists, threads, lists, threads[t := pc], loc, batch, Out);
  }

  lemma ReturnStep(cfg: Config, s: State, t: nat)
    requires Inv(cfg, s) && Enabled(cfg, s, Return(t))
    ensures Inv(cfg, Next(cfg, s, Return(t)))
  {
    hide LocksInv, ListsInv, HeapInv, PcsInv, LocInv, DomInv, ListOk, PcOk, Relabel;
    var Fetched(c, batch) := s.threads[t];
    var pc := Idle;
    Here(cfg, s, t);
    EmptyHandsOk(cfg, s.heap, c);
    LocksDrop(s.locks, s.threads, t, pc, c);
    ListsWork(cfg, s.lists, s.locks, s.threads, t, pc, c, s.lists[c]);
    assert s.lists[c := s.lists[c]] == s.lists;
    HeapPc(s.lists, s.threads, s.heap, t, pc);
    PcsStep(cfg, s.heap, s.threads, t, pc);
    ReturnMoves(s.lists, s.threads, s.loc, t, pc, batch);
    DomRelabel(cfg, s.heap, s.loc, batch, Out);
  }

  // ---------------------------------------------------------------- the remaining steps

  lemma PlaceBatchStep(cfg: Config, s: State, t: nat)
    requires Inv(cfg, s) && Enabled(cfg, s, PlaceBatch(t))
    ensures Inv(cfg, Next(cfg, s, PlaceBatch(t)))
  {
    var Placing(c, batch) := s.threads[t];
    ThreadOk(cfg, s, t);
    Here(cfg, s, t);
    hide LocksInv, ListsInv, HeapInv, PcsInv, LocInv, DomInv, OfClass, CentralOk, Store;
    var l := s.lists[c];
    assert batch + [] == batch;
    if |batch| == cfg.move[c] && |l.slots| < l.cache {
      StoreStep(cfg, s, t, c, batch, l.cache);
    } else if |batch| == cfg.move[c] && l.cache != l.maxCache {
      PcStep(cfg, s, t, MakeSpace(c, batch, false));
    } else {
      PcStep(cfg, s, t, Releasing(c, batch, Leave));
    }
  }

  lemma NoSpaceOk(cfg: Config, heap: map<nat, Owner>, c: nat, batch: seq<Obj>, force: bool)
    requires FullBatch(cfg, heap, batch, c) && NoDup(batch)
    ensures PcOk(cfg, heap, NoSpace(c, batch, force)) && HeldBy(NoSpace(c, batch, force)) == batch
  {
    assert batch + [] == batch;
  }

  lemma EvictOk(cfg: Config, s: State, t: nat, victim: nat, pass: bool)
    requires Inv(cfg, s) && Enabled(cfg, s, Evict(t, victim, pass))
    ensures Inv(cfg, Next(cfg, s, Evict(t, victim, pass)))
  {
    var MakeSpace(c, batch, force) := s.threads[t];
    ThreadOk(cfg, s, t);
    hide LocksInv, ListsInv, HeapInv, PcsInv, LocInv, DomInv, OfClass, BatchIn, FullBatch;
    if victim == c || !pass {
      NoSpaceOk(cfg, s.heap, c, batch, force);
      PcStep(cfg, s, t, NoSpace(c, batch, force));
    } else {
      DropStep(cfg, s, t, Shrink(victim, c, batch, force), c);
    }
  }

  lemma GrowOk(cfg: Config, s: State, t: nat)
    requires Inv(cfg, s) && Enabled(cfg, s, GrowCache(t))
    ensures Inv(cfg, Next(cfg, s, GrowCache(t)))
  {
    var pc := s.threads[t];
    ThreadOk(cfg, s, t);
    Here(cfg, s, t);
    hide Inv, CentralOk, InUse, NoDup, BatchIn;
    GrowAny(cfg, s, t, pc.c, pc.batch, pc.ok, pc.force);
  }

  lemma GrowAny(cfg: Config, s: State, t: nat, c: nat, batch: seq<Obj>, ok: bool, force: bool)
    requires Inv(cfg, s) && t < |s.threads| && s.threads[t] == Resume(c, batch, ok, force)
    requires FullBatch(cfg, s.heap, batch, c) && NoDup(batch)
    requires c < |s.lists| && |s.lists[c].slots| <= s.lists[c].cache
    ensures Inv(cfg, GrowStep(s, t))
  {
    hide Inv, Store, FullBatch, NoDup, PcOk, NoSpace, SetPc;
    var l := s.lists[c];
    if ok && l.cache < l.maxCache {
      StoreStep(cfg, s, t, c, batch, l.cache + 1);
    } else if ok {
      FullReleases(cfg, s.heap, c, batch);
      PcStep(cfg, s, t, Releasing(c, batch, Leave));
    } else {
      NoSpaceOk(cfg, s.heap, c, batch, force);
      NoSpaceHolds(c, batch, force);
      PcStep(cfg, s, t, NoSpace(c, batch, force));
    }
  }

  lemma FullReleases(cfg: Config, heap: map<nat, Owner>, c: nat, batch: seq<Obj>)
    requires FullBatch(cfg, heap, batch, c) && NoDup(batch)
    ensures PcOk(cfg, heap, Releasing(c, batch, Leave)) && HeldBy(Releasing(c, batch, Leave)) == batch
  {
    assert batch + [] == batch;
  }

  lemma NoSpaceHolds(c: nat, batch: seq<Obj>, force: bool)
    ensures var pc := NoSpace(c, batch, force); Holds(pc) == Some(c) && AddedBy(pc) == {} && PrivateSpan(pc) == None
  {
  }

  lemma ReleaseDoneOk(cfg: Config, s: State, t: nat)
    requires Inv(cfg, s) && Enabled(cfg, s, ReleaseDone(t))
    ensures Inv(cfg, Next(cfg, s, ReleaseDone(t)))
  {
    var pc := s.threads[t];
    ReleasedAll(cfg, s, t, pc.c, pc.after);
    hide Inv;
  }

  function AfterPc(after: After): Pc {
    if after.Leave? then Idle else Back(after.home, after.batch, after.ok, after.force)
  }

  lemma ReleasedAll(cfg: Config, s: State, t: nat, c: nat, after: After)
    requires Inv(cfg, s) && t < |s.threads| && s.threads[t] == Releasing(c, [], after)
    ensures c < |s.locks| && Inv(cfg, SetPc(Unlock(s, c), t, AfterPc(after)))
  {
    hide LocksInv, ListsInv, HeapInv, PcsInv, LocInv, DomInv, OfClass, NoDup, SetPc, Unlock;
    ThreadOk(cfg, s, t);
    assert [] + AfterBatch(after) == AfterBatch(after);
    DropStep(cfg, s, t, AfterPc(after), c);
  }

  lemma ShrinkOk(cfg: Config, s: State, t: nat)
    requires Inv(cfg, s) && Enabled(cfg, s, ShrinkCache(t))
    ensures Inv(cfg, Next(cfg, s, ShrinkCache(t)))
  {
    var pc := s.threads[t];
    Here(cfg, s, t);
    hide Inv, CentralOk, InUse;
    ShrinkAny(cfg, s, t, pc.c, pc.home, pc.batch, pc.force);
  }

  lemma ShrinkAny(cfg: Config, s: State, t: nat, c: nat, home: nat, batch: seq<Obj>, force: bool)
    requires Inv(cfg, s) && t < |s.threads| && s.threads[t] == Shrinking(c, home, batch, force)
    requires c < |s.lists| && |s.lists[c].slots| <= s.lists[c].cache <= s.lists[c].maxCache
    ensures Inv(cfg, ShrinkStep(s, t))
  {
    hide Inv, Pop, SetPc, SetList;
    var l := s.lists[c];
    if l.cache == 0 || (|l.slots| == l.cache && !force) {
      ShrinkNot(cfg, s, t, c, home, batch, force);
    } else if |l.slots| == l.cache {
      ShrinkFull(cfg, s, t, c, home, batch);
    } else {
      ShrinkSlack(cfg, s, t, c, home, batch, force);
    }
  }

  lemma ShrinkNot(cfg: Config, s: State, t: nat, c: nat, home: nat, batch: seq<Obj>, force: bool)
    requires Inv(cfg, s) && t < |s.threads| && s.threads[t] == Shrinking(c, home, batch, force)
    ensures Inv(cfg, SetPc(s, t, Releasing(c, [], Evicted(home, batch, false, force))))
  {
    hide LocksInv, ListsInv, HeapInv, PcsInv, LocInv, DomInv, OfClass, FullBatch, NoDup;
    ThreadOk(cfg, s, t);
    assert [] + batch == batch;
    PcStep(cfg, s, t, Releasing(c, [], Evicted(home, batch, false, force)));
  }

  lemma ShrinkSlack(cfg: Config, s: State, t: nat, c: nat, home: nat, batch: seq<Obj>, force: bool)
    requires Inv(cfg, s) && t < |s.threads| && s.threads[t] == Shrinking(c, home, batch, force)
    requires c < |s.lists| && |s.lists[c].slots| < s.lists[c].cache <= s.lists[c].maxCache
    ensures Inv(cfg, SetPc(SetList(s, c, s.lists[c].(cache := s.lists[c].cache - 1)), t,
                           Releasing(c, [], Evicted(home, batch, true, force))))
  {
    hide LocksInv, ListsInv, HeapInv, PcsInv, LocInv, DomInv, OfClass, FullBatch, NoDup;
    ThreadOk(cfg, s, t);
    assert [] + batch == batch;
    CacheStep(cfg, s, t, Releasing(c, [], Evicted(home, batch, true, force)), c, s.lists[c].cache - 1);
  }

  lemma ShrinkFull(cfg: Config, s: State, t: nat, c: nat, home: nat, batch: seq<Obj>)
    requires Inv(cfg, s) && t < |s.threads| && s.threads[t] == Shrinking(c, home, batch, true)
    requires c < |s.lists| && |s.lists[c].slots| == s.lists[c].cache && 0 < s.lists[c].cache <= s.lists[c].maxCache
    ensures Inv(cfg, Pop(s, t, c, s.lists[c].cache - 1,
                         Releasing(c, s.lists[c].slots[|s.lists[c].slots| - 1], Evicted(home, batch, true, true))))
  {
    hide LocksInv, ListsInv, HeapInv, PcsInv, LocInv, DomInv, OfClass, CentralOk, Pop, BatchIn, FullBatch, NoDup;
    var l := s.lists[c];
    var last := l.slots[|l.slots| - 1];
    ThreadOk(cfg, s, t);
    SlotObjects(cfg, s, t, c, |l.slots| - 1);
    Joined(last, batch);
    PopStep(cfg, s, t, c, l.cache - 1, Releasing(c, last, Evicted(home, batch, true, true)));
  }

  lemma FetchOk(cfg: Config, s: State, t: nat)
    requires Inv(cfg, s) && Enabled(cfg, s, Fetch(t))
    ensures Inv(cfg, Next(cfg, s, Fetch(t)))
  {
    var pc := s.threads[t];
    ThreadOk(cfg, s, t);
    Here(cfg, s, t);
    hide Inv, CentralOk, InUse;
    FetchAny(cfg, s, t, pc.c, pc.n);
  }

  lemma FetchAny(cfg: Config, s: State, t: nat, c: nat, n: nat)
    requires Inv(cfg, s) && t < |s.threads| && s.threads[t] == Fetching(c, n) && 0 < n
    requires c < |s.lists| && c < |s.locks| && c < |cfg.per| && c < |cfg.move| && c < |cfg.max|
    requires ListOk(cfg, c, s.lists[c], {})
    ensures Inv(cfg, FetchStep(cfg, s, t))
  {
    hide Inv, Pop, FetchAll, TakeStep, SetPc, Unlock, CentralOk, InUse, Fetches;
    var l := s.lists[c];
    if n == cfg.move[c] && l.slots != [] {
      FetchSlot(cfg, s, t, c, n);
    } else if l.nonempty == [] {
      hide ListOk;
      DropStep(cfg, s, t, Populate(c, n), c);
    } else {
      TakeOk(cfg, s, t, c, n);
      hide ListOk, PcOk;
      TakeStepOk(cfg, s, t, c, FetchAll(l, n, cfg.per[c]).0, FetchAll(l, n, cfg.per[c]).1);
    }
  }

  lemma FetchSlot(cfg: Config, s: State, t: nat, c: nat, n: nat)
    requires Inv(cfg, s) && t < |s.threads| && s.threads[t] == Fetching(c, n)
    requires c < |s.lists| && s.lists[c].slots != [] && |s.lists[c].slots| <= s.lists[c].cache <= s.lists[c].maxCache
    ensures Inv(cfg, Pop(s, t, c, s.lists[c].cache, Fetched(c, s.lists[c].slots[|s.lists[c].slots| - 1])))
  {
    hide Inv, Pop, NoDup, BatchIn;
    SlotObjects(cfg, s, t, c, |s.lists[c].slots| - 1);
    PopStep(cfg, s, t, c, s.lists[c].cache, Fetched(c, s.lists[c].slots[|s.lists[c].slots| - 1]));
  }

  lemma FetchAgainOk(cfg: Config, s: State, t: nat)
    requires Inv(cfg, s) && Enabled(cfg, s, FetchAgain(t))
    ensures Inv(cfg, Next(cfg, s, FetchAgain(t)))
  {
    hide LocksInv, ListsInv, HeapInv, PcsInv, LocInv, DomInv, CentralOk, FetchAll, Fetches, ListOk, PcOk;
    var Refetch(c, n, _) := s.threads[t];
    Here(cfg, s, t);
    TakeOk(cfg, s, t, c, n);
    TakeStepOk(cfg, s, t, c, FetchAll(s.lists[c], n, cfg.per[c]).0, FetchAll(s.lists[c], n, cfg.per[c]).1);
  }

  lemma StepKeeps(cfg: Config, s: State, a: Action)
    requires Inv(cfg, s) && Enabled(cfg, s, a)
    ensures Inv(cfg, Next(cfg, s, a))
  {
    match a
    case BeginInsert(t, c, batch) => InsertStep(cfg, s, t, c, batch);
    case BeginRemove(t, c, n) => PcStep(cfg, s, t, Remove(c, n));
    case Acquire(t) => AcquireStep(cfg, s, t);
    case PlaceBatch(t) => PlaceBatchStep(cfg, s, t);
    case Evict(t, victim, pass) => EvictOk(cfg, s, t, victim, pass);
    case ShrinkCache(t) => ShrinkOk(cfg, s, t);
    case ReleaseNext(t) => ReleaseNextStep(cfg, s, t);
    case DeleteSpan(t) => DeleteStep(cfg, s, t);
    case ReleaseDone(t) => ReleaseDoneOk(cfg, s, t);
    case GrowCache(t) => GrowOk(cfg, s, t);
    case Fetch(t) => FetchOk(cfg, s, t);
    case AskHeap(t, answer) => AskStep(cfg, s, t, answer);
    case ListSpan(t) => ListSpanStep(cfg, s, t);
    case FetchAgain(t) => FetchAgainOk(cfg, s, t);
    case Return(t) => ReturnStep(cfg, s, t);
  }

  // ---------------------------------------------------------------- the slot budget

  function SumCache(lists: seq<Central>): int {
    if lists == [] then 0 else lists[0].cache + SumCache(lists[1..])
  }

  function SumCredit(threads: seq<Pc>): int {
    if threads == [] then 0 else Credit(threads[0]) + SumCredit(threads[1..])
  }

  /** All transfer-cache slots: those classes have, and those on the way from one class to another. */
  function Capacity(s: State): int {
    SumCache(s.lists) + SumCredit(s.threads)
  }

  lemma {:induction false} SumCacheAt(lists: seq<Central>, c: nat, l: Central)
    requires c < |lists|
    ensures SumCache(lists[c := l]) == SumCache(lists) - lists[c].cache + l.cache
  {
    if c != 0 {
      SumCacheAt(lists[1..], c - 1, l);
      assert lists[c := l][1..] == lists[1..][c - 1 := l];
    }
  }

  lemma {:induction false} SumCreditAt(threads: seq<Pc>, t: nat, pc: Pc)
    requires t < |threads|
    ensures SumCredit(threads[t := pc]) == SumCredit(threads) - Credit(threads[t]) + Credit(pc)
  {
    if t != 0 {
      SumCreditAt(threads[1..], t - 1, pc);
      assert threads[t := pc][1..] == threads[1..][t - 1 := pc];
    }
  }

  /** A slot is given up for good when its class has grown to the limit in the meantime. */
  predicate LosesSlot(s: State, a: Action) {
    && a.GrowCache? && a.t < |s.threads| && s.threads[a.t].Resume? && s.threads[a.t].ok
    && s.threads[a.t].c < |s.lists| && s.lists[s.threads[a.t].c].cache >= s.lists[s.threads[a.t].c].maxCache
  }

  lemma CapacityWork(s: State, s': State, t: nat, c: nat)
    requires t < |s.threads| && c < |s.lists| && |s'.lists| == |s.lists| && |s'.threads| == |s.threads|
    requires s'.threads == s.threads[t := s'.threads[t]] && s'.lists == s.lists[c := s'.lists[c]]
    ensures Capacity(s') == Capacity(s) + s'.lists[c].cache - s.lists[c].cache + Credit(s'.threads[t]) - Credit(s.threads[t])
  {
    SumCacheAt(s.lists, c, s'.lists[c]);
    SumCreditAt(s.threads, t, s'.threads[t]);
  }

  lemma CapacityPc(s: State, s': State, t: nat)
    requires t < |s.threads| && |s'.threads| == |s.threads|
    requires s'.threads == s.threads[t := s'.threads[t]] && s'.lists == s.lists
    ensures Capacity(s') == Capacity(s) + Credit(s'.threads[t]) - Credit(s.threads[t])
  {
    SumCreditAt(s.threads, t, s'.threads[t]);
  }

  lemma PlaceDelta(cfg: Config, s: State, t: nat)
    requires t < |s.threads| && s.threads[t].Placing? && s.threads[t].c < |s.lists| && s.threads[t].c < |cfg.move|
    ensures Capacity(PlaceStep(cfg, s, t)) == Capacity(s)
  {
    hide Capacity, Relabel;
    var c := s.threads[t].c;
    assert s.lists[c := s.lists[c]] == s.lists;
    CapacityWork(s, PlaceStep(cfg, s, t), t, c);
  }

  lemma GrowDelta(s: State, t: nat)
    requires t < |s.threads| && s.threads[t].Resume? && s.threads[t].c < |s.lists|
    ensures Capacity(GrowStep(s, t)) == Capacity(s) - if LosesSlot(s, GrowCache(t)) then 1 else 0
  {
    hide Capacity, Relabel;
    var c := s.threads[t].c;
    assert s.lists[c := s.lists[c]] == s.lists;
    CapacityWork(s, GrowStep(s, t), t, c);
  }

  lemma CapacitySlots(cfg: Config, s: State, a: Action)
    requires Inv(cfg, s) && Enabled(cfg, s, a) && (a.PlaceBatch? || a.GrowCache?)
    ensures Capacity(Next(cfg, s, a)) == Capacity(s) - if LosesSlot(s, a) then 1 else 0
  {
    Here(cfg, s, a.t);
    hide Inv, ListOk, Capacity;
    if a.PlaceBatch? {
      PlaceDelta(cfg, s, a.t);
    } else {
      GrowDelta(s, a.t);
    }
  }

  lemma CapacityShrink(cfg: Config, s: State, a: Action)
    requires Inv(cfg, s) && Enabled(cfg, s, a) && a.ShrinkCache?
    ensures Capacity(Next(cfg, s, a)) == Capacity(s)
  {
    Here(cfg, s, a.t);
    hide Inv, CentralOk, InUse;
    ShrinkDelta(s, a.t);
  }

  lemma ShrinkDelta(s: State, t: nat)
    requires t < |s.threads| && s.threads[t].Shrinking? && s.threads[t].c < |s.lists|
    requires |s.lists[s.threads[t].c].slots| <= s.lists[s.threads[t].c].cache
    ensures Capacity(ShrinkStep(s, t)) == Capacity(s)
  {
    hide Capacity, Relabel;
    var c := s.threads[t].c;
    assert s.lists[c := s.lists[c]] == s.lists;
    CapacityWork(s, ShrinkStep(s, t), t, c);
  }

  lemma CapacityRelease(cfg: Config, s: State, a: Action)
    requires Inv(cfg, s) && Enabled(cfg, s, a) && a.ReleaseNext?
    ensures Capacity(Next(cfg, s, a)) == Capacity(s)
  {
    var pc := s.threads[a.t];
    Here(cfg, s, a.t);
    HeldHere(cfg, s, a.t, pc.rest[0]);
    hide Inv, CentralOk, InUse, IsFree;
    ReleaseDelta(cfg, s, a.t);
  }

  lemma ReleaseDelta(cfg: Config, s: State, t: nat)
    requires t < |s.threads| && s.threads[t].Releasing? && s.threads[t].rest != []
    requires s.threads[t].c < |s.lists| && s.threads[t].c < |s.locks| && s.threads[t].c < |cfg.per|
    requires s.threads[t].rest[0].span in s.lists[s.threads[t].c].spans
    ensures Capacity(ReleaseStep(cfg, s, t)) == Capacity(s)
  {
    hide Capacity, Relabel, Without;
    CapacityWork(s, ReleaseStep(cfg, s, t), t, s.threads[t].c);
  }

  lemma CapacityTake(s: State, t: nat, c: nat, l: Central, got: seq<Obj>)
    requires t < |s.threads| && c < |s.lists| && l.cache == s.lists[c].cache && Credit(s.threads[t]) == 0
    ensures Capacity(TakeStep(s, t, c, l, got)) == Capacity(s)
  {
    hide Capacity, Relabel;
    CapacityWork(s, TakeStep(s, t, c, l, got), t, c);
  }

  lemma FetchDelta(cfg: Config, s: State, t: nat)
    requires t < |s.threads| && s.threads[t].Fetching? && s.threads[t].c < |s.lists| && s.threads[t].c < |s.locks|
    requires s.threads[t].c < |cfg.per| && s.threads[t].c < |cfg.move|
    requires CentralOk(s.lists[s.threads[t].c], cfg.per[s.threads[t].c])
    requires FetchAll(s.lists[s.threads[t].c], s.threads[t].n, cfg.per[s.threads[t].c]).0.cache == s.lists[s.threads[t].c].cache
    ensures Capacity(FetchStep(cfg, s, t)) == Capacity(s)
  {
    hide Capacity, Relabel, CentralOk, FetchAll;
    var Fetching(c, n) := s.threads[t];
    assert s.lists[c := s.lists[c]] == s.lists;
    CapacityWork(s, FetchStep(cfg, s, t), t, c);
  }

  lemma CapacityFetch(cfg: Config, s: State, a: Action)
    requires Inv(cfg, s) && Enabled(cfg, s, a) && (a.Fetch? || a.FetchAgain?)
    ensures Capacity(Next(cfg, s, a)) == Capacity(s)
  {
    hide Inv, Capacity, CentralOk, ListOk, IsFree, FetchAll, PcOk;
    var pc := s.threads[a.t];
    Here(cfg, s, a.t);
    TakeOk(cfg, s, a.t, pc.c, pc.n);
    if a.Fetch? {
      FetchDelta(cfg, s, a.t);
    } else {
      var (l, got) := FetchAll(s.lists[pc.c], pc.n, cfg.per[pc.c]);
      CapacityTake(s, a.t, pc.c, l, got);
    }
  }

  lemma ListDelta(cfg: Config, s: State, t: nat)
    requires t < |s.threads| && s.threads[t].Refill? && s.threads[t].c < |s.lists| && s.threads[t].c < |cfg.per|
    ensures Capacity(ListStep(cfg, s, t)) == Capacity(s)
  {
    hide Capacity, Objects;
    var c := s.threads[t].c;
    assert s.lists[c := s.lists[c]] == s.lists;
    CapacityWork(s, ListStep(cfg, s, t), t, c);
  }

  lemma CapacityList(cfg: Config, s: State, a: Action)
    requires Inv(cfg, s) && Enabled(cfg, s, a) && a.ListSpan?
    ensures Capacity(Next(cfg, s, a)) == Capacity(s)
  {
    Here(cfg, s, a.t);
    hide Inv, Capacity, ListOk;
    ListDelta(cfg, s, a.t);
  }

  lemma CapacityAcquire(cfg: Config, s: State, a: Action)
    requires Inv(cfg, s) && Enabled(cfg, s, a) && a.Acquire?
    ensures Capacity(Next(cfg, s, a)) == Capacity(s)
  {
    ThreadOk(cfg, s, a.t);
    EnteredSame(cfg, s.heap, s.threads[a.t]);
    hide Inv, Capacity, PcOk, Holds, HeldBy, PrivateSpan, Credit;
    CapacityPc(s, Next(cfg, s, a), a.t);
  }

  lemma CapacityWaiting(cfg: Config, s: State, a: Action)
    requires Inv(cfg, s) && Enabled(cfg, s, a) && (a.BeginInsert? || a.BeginRemove? || a.DeleteSpan? || a.AskHeap?)
    ensures Capacity(Next(cfg, s, a)) == Capacity(s)
  {
    hide Inv, Capacity, Relabel, NoDup, OfClass;
    CapacityPc(s, Next(cfg, s, a), a.t);
  }

  lemma CapacityLeaving(cfg: Config, s: State, a: Action)
    requires Inv(cfg, s) && Enabled(cfg, s, a) && (a.Evict? || a.ReleaseDone? || a.Return?)
    ensures Capacity(Next(cfg, s, a)) == Capacity(s)
  {
    hide Inv, Capacity, Relabel;
    CapacityPc(s, Next(cfg, s, a), a.t);
  }

  /** Slots are never made, and lost only in one case. */
  lemma CapacityStep(cfg: Config, s: State, a: Action)
    requires Inv(cfg, s) && Enabled(cfg, s, a)
    ensures Capacity(Next(cfg, s, a)) == Capacity(s) - if LosesSlot(s, a) then 1 else 0
  {
    hide Inv, Enabled, Next, Capacity;
    match a
    case PlaceBatch(_) => CapacitySlots(cfg, s, a);
    case GrowCache(_) => CapacitySlots(cfg, s, a);
    case ShrinkCache(_) => CapacityShrink(cfg, s, a);
    case ReleaseNext(_) => CapacityRelease(cfg, s, a);
    case Fetch(_) => CapacityFetch(cfg, s, a);
    case FetchAgain(_) => CapacityFetch(cfg, s, a);
    case ListSpan(_) => CapacityList(cfg, s, a);
    case Evict(_, _, _) => CapacityLeaving(cfg, s, a);
    case ReleaseDone(_) => CapacityLeaving(cfg, s, a);
    case Return(_) => CapacityLeaving(cfg, s, a);
    case Acquire(_) => CapacityAcquire(cfg, s, a);
    case _ => CapacityWaiting(cfg, s, a);
  }

  // ---------------------------------------------------------------- runs

  ghost predicate Init(cfg: Config, s: State) {
    && ValidConfig(cfg) && |s.lists| == |cfg.per| && |s.locks| == |cfg.per| && s.heap == map[] && s.loc == map[]
    && (forall c :: 0 <= c < |s.locks| ==> s.locks[c] == None)
    && (forall t :: 0 <= t < |s.threads| ==> s.threads[t] == Idle)
    && (forall c :: 0 <= c < |s.lists| ==>
          s.lists[c] == Central(cfg.max[c], if 16 <= cfg.max[c] then 16 else cfg.max[c], [], map[], [], [], 0, 0))
  }

  /** Any interleaving of enabled steps. */
  ghost predicate IsRun(cfg: Config, trace: seq<State>, actions: seq<Action>) {
    && |trace| == |actions| + 1 && Init(cfg, trace[0])
    && forall i, j :: 0 <= i < j < |trace| && j == i + 1 && Inv(cfg, trace[i]) ==>
         Enabled(cfg, trace[i], actions[i]) && trace[j] == Next(cfg, trace[i], actions[i])
  }

  lemma InitInv(cfg: Config, s: State)
    requires Init(cfg, s)
    ensures Inv(cfg, s)
  {
  }

  lemma RunStep(cfg: Config, trace: seq<State>, actions: seq<Action>, n: nat)
    requires IsRun(cfg, trace, actions) && 0 < n < |trace| && Inv(cfg, trace[n - 1])
    ensures Enabled(cfg, trace[n - 1], actions[n - 1]) && trace[n] == Next(cfg, trace[n - 1], actions[n - 1])
  {
    hide Inv, Enabled, Init;
  }

  lemma {:induction false} EveryRun(cfg: Config, trace: seq<State>, actions: seq<Action>, n: nat)
    requires IsRun(cfg, trace, actions) && n < |trace|
    ensures Inv(cfg, trace[n]) && Capacity(trace[n]) <= Capacity(trace[0])
  {
    if n == 0 {
      InitInv(cfg, trace[0]);
    } else {
      EveryRun(cfg, trace, actions, n - 1);
      RunStep(cfg, trace, actions, n);
      hide Inv, Enabled, Capacity, IsRun, Next;
      StepKeeps(cfg, trace[n - 1], actions[n - 1]);
      CapacityStep(cfg, trace[n - 1], actions[n - 1]);
    }
  }

  /** In every reachable state the slots of every class are within its limits. */
  lemma SlotsWithinLimits(cfg: Config, trace: seq<State>, actions: seq<Action>, n: nat, c: nat)
    requires IsRun(cfg, trace, actions) && n < |trace| && c < |trace[n].lists|
    ensures var l := trace[n].lists[c]; |l.slots| <= l.cache <= l.maxCache <= MAX_SLOTS
  {
    EveryRun(cfg, trace, actions, n);
    var s := trace[n];
    assert ListOk(cfg, c, s.lists[c], Unused(s.locks, s.threads, c));
  }

  /** In every reachable state no thread has two class locks. */
  lemma NeverTwoLocks(cfg: Config, trace: seq<State>, actions: seq<Action>, n: nat, c: nat, d: nat)
    requires IsRun(cfg, trace, actions) && n < |trace| && c < |trace[n].locks| && d < |trace[n].locks|
    requires trace[n].locks[c].Some? && trace[n].locks[c] == trace[n].locks[d]
    ensures c == d
  {
    EveryRun(cfg, trace, actions, n);
  }

  // ---------------------------------------------------------------- what RemoveRange returns

  predicate HasSlot(cfg: Config, s: State, c: nat, n: nat) {
    c < |cfg.move| && n == cfg.move[c] && c < |s.lists| && s.lists[c].slots != []
  }

  predicate HasFree(s: State, c: nat) {
    c < |s.lists| && s.lists[c].nonempty != []
  }

  function TopSlot(s: State, c: nat): seq<Obj>
    requires c < |s.lists| && s.lists[c].slots != []
  {
    s.lists[c].slots[|s.lists[c].slots| - 1]
  }

  /** Where a thread is in RemoveRange(c, n); asked tells whether the page heap has refused it a span. */
  predicate InRemove(pc: Pc, c: nat, n: nat, asked: bool) {
    match pc
    case Remove(c', n') => c' == c && n' == n
    case Fetching(c', n') => c' == c && n' == n
    case Populate(c', n') => c' == c && n' == n
    case Populated(c', n', got) => c' == c && n' == n && (got.None? ==> asked)
    case Refill(c', n', got) => c' == c && n' == n && (got.None? ==> asked)
    case Refetch(c', n', added) => c' == c && n' == n && (added.None? ==> asked)
    case Fetched(c', batch) => c' == c && |batch| <= n && (batch == [] ==> asked)
    case _ => false
  }

  /** A thread about to return fewer objects than it was asked for leaves none free in its class. */
  predicate ShortMeansDry(s: State, t: nat, n: nat)
    requires t < |s.threads|
  {
    s.threads[t].Fetched? && s.threads[t].c < |s.lists| && |s.threads[t].batch| < n ==> s.lists[s.threads[t].c].nonempty == []
  }

  /** What a fetch from the spans hands out. */
  lemma TakeHands(cfg: Config, s: State, t: nat, c: nat, n: nat)
    requires Inv(cfg, s) && t < |s.threads| && (s.threads[t].Fetching? || s.threads[t].Refetch?)
    requires c == s.threads[t].c && n == s.threads[t].n
    ensures c < |s.lists| && c < |cfg.per| && CentralOk(s.lists[c], cfg.per[c])
    ensures var (l, got) := FetchAll(s.lists[c], n, cfg.per[c]);
            && |got| <= n && (|got| < n ==> l.nonempty == []) && (got == [] <==> s.lists[c].nonempty == [])
    ensures s.threads[t].Refetch? && s.threads[t].added.Some? ==> s.lists[c].nonempty != []
  {
    hide Inv, CentralOk, FetchAll, Fetches, InUse;
    Here(cfg, s, t);
    WantsSome(cfg, s, t);
    FetchAllOk(s.lists[c], n, cfg.per[c], AddedBy(s.threads[t]));
  }

  lemma FetchStage(cfg: Config, s: State, t: nat, c: nat, n: nat, asked: bool)
    requires Inv(cfg, s) && Enabled(cfg, s, Fetch(t)) && InRemove(s.threads[t], c, n, asked)
    ensures var s' := Next(cfg, s, Fetch(t));
            && t < |s'.threads| && InRemove(s'.threads[t], c, n, asked) && ShortMeansDry(s', t, n)
            && (HasSlot(cfg, s, c, n) ==> s'.threads[t] == Fetched(c, TopSlot(s, c)))
            && (HasFree(s, c) ==> s'.threads[t].Fetched?)
  {
    hide Inv, CentralOk, FetchAll, Relabel;
    Here(cfg, s, t);
    WantsSome(cfg, s, t);
    TakeHands(cfg, s, t, c, n);
  }

  lemma FetchAgainStage(cfg: Config, s: State, t: nat, c: nat, n: nat, asked: bool)
    requires Inv(cfg, s) && Enabled(cfg, s, FetchAgain(t)) && InRemove(s.threads[t], c, n, asked)
    ensures var s' := Next(cfg, s, FetchAgain(t));
            t < |s'.threads| && InRemove(s'.threads[t], c, n, asked) && ShortMeansDry(s', t, n)
  {
    hide Inv, CentralOk, FetchAll, Relabel;
    Here(cfg, s, t);
    TakeHands(cfg, s, t, c, n);
  }

  /** A step of the thread itself, up to the return. */
  lemma OwnStage(cfg: Config, s: State, a: Action, c: nat, n: nat, asked: bool)
    requires Inv(cfg, s) && Enabled(cfg, s, a) && !a.Return? && InRemove(s.threads[a.t], c, n, asked)
    ensures var s' := Next(cfg, s, a);
            && a.t < |s'.threads| && InRemove(s'.threads[a.t], c, n, asked || a == AskHeap(a.t, None)) && ShortMeansDry(s', a.t, n)
            && (a.Fetch? && HasSlot(cfg, s, c, n) ==> s'.threads[a.t] == Fetched(c, TopSlot(s, c)))
            && (a.Fetch? && HasFree(s, c) ==> s'.threads[a.t].Fetched?)
  {
    if a.Fetch? {
      FetchStage(cfg, s, a.t, c, n, asked);
    } else if a.FetchAgain? {
      FetchAgainStage(cfg, s, a.t, c, n, asked);
    } else {
      hide Inv;
      ListSpanStage(cfg, s, a, c, n, asked);
    }
  }

  lemma ListSpanStage(cfg: Config, s: State, a: Action, c: nat, n: nat, asked: bool)
    requires Inv(cfg, s) && Enabled(cfg, s, a) && !a.Return? && !a.Fetch? && !a.FetchAgain?
    requires InRemove(s.threads[a.t], c, n, asked)
    ensures var s' := Next(cfg, s, a);
            a.t < |s'.threads| && InRemove(s'.threads[a.t], c, n, asked || a == AskHeap(a.t, None)) && !s'.threads[a.t].Fetched?
  {
    hide LocksInv, ListsInv, HeapInv, PcsInv, LocInv, DomInv, ListOk;
  }

  /** Only thread t has moved, and only in a class whose lock it had. */
  ghost predicate Local(s: State, s': State, t: nat)
    requires t < |s.threads|
  {
    && |s'.threads| == |s.threads| && |s'.lists| == |s.lists|
    && (forall u :: 0 <= u < |s.threads| && u != t ==> s'.threads[u] == s.threads[u])
    && (forall c: nat :: c < |s.lists| && Holds(s.threads[t]) != Some(c) ==> s'.lists[c] == s.lists[c])
  }

  lemma InsertLocal(cfg: Config, s: State, a: Action)
    requires Inv(cfg, s) && Enabled(cfg, s, a) && (a.PlaceBatch? || a.Evict? || a.ShrinkCache? || a.GrowCache?)
    ensures Local(s, Next(cfg, s, a), a.t)
  {
    hide Inv, ListOk, Relabel;
    Here(cfg, s, a.t);
  }

  lemma ReleaseLocal(cfg: Config, s: State, a: Action)
    requires Inv(cfg, s) && Enabled(cfg, s, a) && (a.ReleaseNext? || a.ReleaseDone? || a.Return?)
    ensures Local(s, Next(cfg, s, a), a.t)
  {
    hide Inv, ListOk, Relabel, ReleaseOne;
    Here(cfg, s, a.t);
  }

  lemma FetchLocal(cfg: Config, s: State, a: Action)
    requires Inv(cfg, s) && Enabled(cfg, s, a) && (a.Fetch? || a.ListSpan? || a.FetchAgain?)
    ensures Local(s, Next(cfg, s, a), a.t)
  {
    hide Inv, ListOk, Relabel, FetchAll;
    Here(cfg, s, a.t);
  }

  lemma OtherLocal(cfg: Config, s: State, a: Action)
    requires Inv(cfg, s) && Enabled(cfg, s, a)
    requires a.BeginInsert? || a.BeginRemove? || a.Acquire? || a.DeleteSpan? || a.AskHeap?
    ensures Local(s, Next(cfg, s, a), a.t)
  {
    hide Inv, ListOk, Relabel;
  }

  /** Every step is local to its thread and to the class it has locked. */
  lemma StepLocal(cfg: Config, s: State, a: Action)
    requires Inv(cfg, s) && Enabled(cfg, s, a)
    ensures Local(s, Next(cfg, s, a), a.t)
  {
    hide Inv, Enabled, Next, Local;
    if a.PlaceBatch? || a.Evict? || a.ShrinkCache? || a.GrowCache? {
      InsertLocal(cfg, s, a);
    } else if a.ReleaseNext? || a.ReleaseDone? || a.Return? {
      ReleaseLocal(cfg, s, a);
    } else if a.Fetch? || a.ListSpan? || a.FetchAgain? {
      FetchLocal(cfg, s, a);
    } else {
      OtherLocal(cfg, s, a);
    }
  }

  /** A step of another thread leaves this one alone, and its class if it has the lock. */
  lemma OthersKeep(cfg: Config, s: State, a: Action, t: nat)
    requires Inv(cfg, s) && Enabled(cfg, s, a) && t < |s.threads| && t != a.t
    ensures var s' := Next(cfg, s, a);
            && |s'.threads| == |s.threads| && s'.threads[t] == s.threads[t] && |s'.lists| == |s.lists|
            && (Holds(s.threads[t]).Some? && s.threads[t].c < |s.lists| ==>
                  s'.lists[s.threads[t].c] == s.lists[s.threads[t].c])
  {
    hide Inv, ListOk, Next;
    StepLocal(cfg, s, a);
    if Holds(s.threads[t]).Some? {
      Here(cfg, s, t);
      if Holds(s.threads[a.t]).Some? {
        Here(cfg, s, a.t);
      }
    }
  }

  /** The page heap refused thread t a span at a step after m and before i. */
  ghost predicate AskedInVain(actions: seq<Action>, t: nat, m: nat, i: nat) {
    exists j :: m < j < i <= |actions| && actions[j] == AskHeap(t, None)
  }

  /** A fetch of thread t after m that found a slot of n objects has taken the last one, and one that found anything is done. */
  ghost predicate SlotTaken(cfg: Config, trace: seq<State>, actions: seq<Action>, t: nat, c: nat, n: nat, m: nat, i: nat)
    requires i <= |actions| < |trace| && t < |trace[i].threads|
  {
    forall j {:trigger actions[j]} :: m < j < i && actions[j] == Fetch(t) ==>
      && (HasSlot(cfg, trace[j], c, n) ==> trace[i].threads[t] == Fetched(c, TopSlot(trace[j], c)))
      && (HasFree(trace[j], c) ==> trace[i].threads[t].Fetched?)
  }

  ghost predicate Progress(cfg: Config, trace: seq<State>, actions: seq<Action>, t: nat, c: nat, n: nat, m: nat, i: nat) {
    && i <= |actions| < |trace| && t < |trace[i].threads|
    && InRemove(trace[i].threads[t], c, n, AskedInVain(actions, t, m, i))
    && ShortMeansDry(trace[i], t, n) && SlotTaken(cfg, trace, actions, t, c, n, m, i)
  }

  lemma AskedMore(actions: seq<Action>, t: nat, m: nat, i: nat)
    requires m < i < |actions|
    ensures AskedInVain(actions, t, m, i + 1) <==> AskedInVain(actions, t, m, i) || actions[i] == AskHeap(t, None)
  {
    if AskedInVain(actions, t, m, i) {
      var j :| m < j < i && actions[j] == AskHeap(t, None);
      assert AskedInVain(actions, t, m, i + 1);
    }
    if actions[i] == AskHeap(t, None) {
      assert AskedInVain(actions, t, m, i + 1);
    }
  }

  lemma ProgressStep(cfg: Config, trace: seq<State>, actions: seq<Action>, t: nat, c: nat, n: nat, m: nat, i: nat)
    requires m < i < |actions| < |trace| && Progress(cfg, trace, actions, t, c, n, m, i) && Inv(cfg, trace[i])
    requires Enabled(cfg, trace[i], actions[i]) && trace[i + 1] == Next(cfg, trace[i], actions[i]) && actions[i] != Return(t)
    ensures Progress(cfg, trace, actions, t, c, n, m, i + 1)
  {
    hide Inv, Enabled, Next;
    var a := actions[i];
    AskedMore(actions, t, m, i);
    hide AskedInVain;
    if a.t == t {
      OwnStage(cfg, trace[i], a, c, n, AskedInVain(actions, t, m, i));
      NoneYet(cfg, trace, actions, t, c, n, m, i);
    } else {
      OthersKeep(cfg, trace[i], a, t);
    }
  }

  /** A thread that takes another step than its return has not taken a slot before. */
  lemma NoneYet(cfg: Config, trace: seq<State>, actions: seq<Action>, t: nat, c: nat, n: nat, m: nat, i: nat)
    requires m < i < |actions| < |trace| && t < |trace[i].threads| && SlotTaken(cfg, trace, actions, t, c, n, m, i)
    requires Enabled(cfg, trace[i], actions[i]) && actions[i].t == t && actions[i] != Return(t)
    ensures forall j {:trigger actions[j]} :: m < j < i && actions[j] == Fetch(t) ==>
              !HasSlot(cfg, trace[j], c, n) && !HasFree(trace[j], c)
  {
    assert !trace[i].threads[t].Fetched?;
  }

  lemma {:induction false} RemoveProgress(cfg: Config, trace: seq<State>, actions: seq<Action>, t: nat, c: nat, n: nat, m: nat, i: nat)
    requires IsRun(cfg, trace, actions) && m < i <= |actions| && actions[m] == BeginRemove(t, c, n)
    requires forall j {:trigger actions[j]} :: m < j < i ==> actions[j] != Return(t)
    ensures Progress(cfg, trace, actions, t, c, n, m, i)
    decreases i
  {
    hide Inv, Enabled, Next, Init, Progress;
    RunLength(cfg, trace, actions);
    EveryRun(cfg, trace, actions, i - 1);
    RunStep(cfg, trace, actions, i);
    hide IsRun;
    if i == m + 1 {
      ProgressStart(cfg, trace, actions, t, c, n, m);
    } else {
      RemoveProgress(cfg, trace, actions, t, c, n, m, i - 1);
      ProgressStep(cfg, trace, actions, t, c, n, m, i - 1);
    }
  }

  lemma RunLength(cfg: Config, trace: seq<State>, actions: seq<Action>)
    requires IsRun(cfg, trace, actions)
    ensures |trace| == |actions| + 1
  {
    hide Inv, Enabled, Next, Init;
  }

  lemma ProgressStart(cfg: Config, trace: seq<State>, actions: seq<Action>, t: nat, c: nat, n: nat, m: nat)
    requires m < |actions| < |trace| && actions[m] == BeginRemove(t, c, n) && Inv(cfg, trace[m])
    requires Enabled(cfg, trace[m], actions[m]) && trace[m + 1] == Next(cfg, trace[m], actions[m])
    ensures Progress(cfg, trace, actions, t, c, n, m, m + 1)
  {
    hide Inv;
  }

  /** RemoveRange asks the page heap only if its fetch found neither a slot to take nor a free object. */
  lemma AsksWhenDry(cfg: Config, trace: seq<State>, actions: seq<Action>, t: nat, c: nat, n: nat, m: nat, j: nat, i: nat)
    requires IsRun(cfg, trace, actions) && m < j < i < |actions|
    requires actions[m] == BeginRemove(t, c, n) && actions[j] == Fetch(t) && actions[i].AskHeap? && actions[i].t == t
    requires forall k {:trigger actions[k]} :: m < k < i ==> actions[k] != Return(t)
    ensures !HasSlot(cfg, trace[j], c, n) && !HasFree(trace[j], c)
  {
    hide Inv, Next, Init, HasSlot, HasFree;
    RunLength(cfg, trace, actions);
    EveryRun(cfg, trace, actions, i);
    RunStep(cfg, trace, actions, i + 1);
    RemoveProgress(cfg, trace, actions, t, c, n, m, i);
    NoneYet(cfg, trace, actions, t, c, n, m, i);
  }

  /**
   * Every call of RemoveRange(c, n) in every run, from its start at step m to its return at step k.
   * It returns at most n objects of the class, all different; fewer only if the class then has none
   * free, and none at all only if the page heap refused a span in between. If n is the batch size
   * and a slot was filled when it had the lock, it returns the batch of the last slot.
   */
  lemma RemoveReturns(cfg: Config, trace: seq<State>, actions: seq<Action>, t: nat, c: nat, n: nat, m: nat, k: nat)
    requires IsRun(cfg, trace, actions) && m < k < |actions|
    requires actions[m] == BeginRemove(t, c, n) && actions[k] == Return(t)
    requires forall j {:trigger actions[j]} :: m < j < k ==> actions[j] != Return(t)
    ensures t < |trace[k].threads| && trace[k].threads[t].Fetched? && trace[k].threads[t].c == c && c < |trace[k].lists|
    ensures var batch := trace[k].threads[t].batch;
            && NoDup(batch) && (forall o :: o in batch ==> OfClass(cfg, trace[k].heap, o, c)) && |batch| <= n
            && (|batch| < n ==> trace[k].lists[c].nonempty == [])
            && (batch == [] ==> AskedInVain(actions, t, m, k))
            && (forall j {:trigger actions[j]} :: m < j < k && actions[j] == Fetch(t) && HasSlot(cfg, trace[j], c, n) ==>
                  batch == TopSlot(trace[j], c))
  {
    EveryRun(cfg, trace, actions, k);
    RunStep(cfg, trace, actions, k + 1);
    RemoveProgress(cfg, trace, actions, t, c, n, m, k);
    hide IsRun;
    Here(cfg, trace[k], t);
    ThreadOk(cfg, trace[k], t);
    hide Inv, ListOk, OfClass;
  }

  // ---------------------------------------------------------------- what a slot is for

  /** A full batch goes into the next slot if there is room, and nothing else of the class changes. */
  lemma PlacedInSlot(cfg: Config, s: State, t: nat)
    requires Inv(cfg, s) && Enabled(cfg, s, PlaceBatch(t))
    ensures var (pc, s') := (s.threads[t], Next(cfg, s, PlaceBatch(t)));
            && pc.c < |s.lists| && pc.c < |cfg.move| && |s'.lists| == |s.lists|
            && (|pc.batch| == cfg.move[pc.c] && |s.lists[pc.c].slots| < s.lists[pc.c].cache ==>
                  s'.lists[pc.c] == s.lists[pc.c].(slots := s.lists[pc.c].slots + [pc.batch]))
  {
    hide Inv, ListOk, Relabel;
    Here(cfg, s, t);
  }

  /**
   * A full batch put into a slot comes back, as it was, from the next RemoveRange of as many objects
   * that has the lock of the class before anyone else changes it, and leaves the class as it was.
   */
  lemma SlotRoundTrip(cfg: Config, s: State, t: nat, u: State, v: nat)
    requires Inv(cfg, s) && Enabled(cfg, s, PlaceBatch(t)) && Inv(cfg, u) && Enabled(cfg, u, Fetch(v))
    requires var (pc, s') := (s.threads[t], Next(cfg, s, PlaceBatch(t)));
             && pc.c < |s.lists| && pc.c < |cfg.move| && |pc.batch| == cfg.move[pc.c]
             && |s.lists[pc.c].slots| < s.lists[pc.c].cache
             && pc.c < |u.lists| && pc.c < |s'.lists| && u.lists[pc.c] == s'.lists[pc.c]
             && u.threads[v] == Fetching(pc.c, |pc.batch|)
    ensures var (pc, u') := (s.threads[t], Next(cfg, u, Fetch(v)));
            && v < |u'.threads| && u'.threads[v] == Fetched(pc.c, pc.batch)
            && pc.c < |u'.lists| && u'.lists[pc.c] == s.lists[pc.c]
  {
    hide Inv, ListOk, Relabel, CentralOk, FetchAll;
    PlacedInSlot(cfg, s, t);
    Here(cfg, u, v);
    var c := s.threads[t].c;
    assert u.lists[c].slots[..|u.lists[c].slots| - 1] == s.lists[c].slots;
  }

  /** A victim that looks promising is tried: the own lock is dropped, and that of the victim is waited for. */
  lemma EvictionTries(cfg: Config, s: State, t: nat, victim: nat)
    requires Inv(cfg, s) && Enabled(cfg, s, Evict(t, victim, true)) && victim != s.threads[t].c
    ensures var (pc, s') := (s.threads[t], Next(cfg, s, Evict(t, victim, true)));
            && t < |s'.threads| && s'.threads[t] == Shrink(victim, pc.c, pc.batch, pc.force)
            && pc.c < |s'.locks| && s'.locks[pc.c] == None && s'.lists == s.lists
  {
    hide Inv, ListOk;
    Here(cfg, s, t);
  }

  /**
   * The victim gives up a slot exactly if it has an unused one, or any at all when forced; it then
   * has one less, and the batch of the last slot is released if all were in use.
   */
  lemma VictimGives(cfg: Config, s: State, t: nat)
    requires Inv(cfg, s) && Enabled(cfg, s, ShrinkCache(t))
    ensures var (pc, s') := (s.threads[t], Next(cfg, s, ShrinkCache(t)));
            && pc.c < |s.lists| && |s'.lists| == |s.lists| && t < |s'.threads| && s'.threads[t].Releasing?
            && s'.threads[t].c == pc.c && s'.threads[t].after.Evicted?
            && var (l, l', ok) := (s.lists[pc.c], s'.lists[pc.c], s'.threads[t].after.ok);
            && (ok <==> |l.slots| < l.cache || (0 < l.cache && pc.force))
            && l'.cache == l.cache - (if ok then 1 else 0)
            && l.slots == l'.slots + (if ok && |l.slots| == l.cache then [s'.threads[t].rest] else [])
            && (!(ok && |l.slots| == l.cache) ==> s'.threads[t].rest == [])
  {
    hide Inv, Relabel, CentralOk;
    Here(cfg, s, t);
  }

  // ---------------------------------------------------------------- what InsertRange tries

  /** After an eviction attempt: the first was without force, and a second with force. */
  predicate Attempts(force: bool, soft: bool, hard: bool) {
    soft && (force ==> hard)
  }

  predicate AfterInsert(cfg: Config, after: After, rest: seq<Obj>, c: nat, batch: seq<Obj>, soft: bool, hard: bool, full: bool)
    requires c < |cfg.move|
  {
    match after
    case Leave => rest != [] ==> |batch| != cfg.move[c] || full || (soft && hard)
    case Evicted(home, b, _, force) => home == c && b == batch && |batch| == cfg.move[c] && Attempts(force, soft, hard)
  }

  /**
   * Where a thread is in InsertRange(c, batch). soft and hard tell whether it has tried to evict from
   * another class without and with force, full whether it found its own class at its limit.
   */
  predicate InInsert(cfg: Config, pc: Pc, c: nat, batch: seq<Obj>, soft: bool, hard: bool, full: bool)
    requires c < |cfg.move|
  {
    match pc
    case Insert(c', b) => c' == c && b == batch
    case Placing(c', b) => c' == c && b == batch
    case MakeSpace(c', b, force) => c' == c && b == batch && |batch| == cfg.move[c] && (force ==> soft)
    case Shrink(_, home, b, force) => home == c && b == batch && |batch| == cfg.move[c] && Attempts(force, soft, hard)
    case Shrinking(_, home, b, force) => home == c && b == batch && |batch| == cfg.move[c] && Attempts(force, soft, hard)
    case Releasing(c', rest, after) => (after.Leave? ==> c' == c) && AfterInsert(cfg, after, rest, c, batch, soft, hard, full)
    case Deleting(c', rest, after, _) => (after.Leave? ==> c' == c) && AfterInsert(cfg, after, rest, c, batch, soft, hard, full)
    case Relock(c', rest, after) => (after.Leave? ==> c' == c) && AfterInsert(cfg, after, rest, c, batch, soft, hard, full)
    case Back(c', b, _, force) => c' == c && b == batch && |batch| == cfg.move[c] && Attempts(force, soft, hard)
    case Resume(c', b, _, force) => c' == c && b == batch && |batch| == cfg.move[c] && Attempts(force, soft, hard)
    case _ => false
  }

  predicate TriesEvict(s: State, a: Action, t: nat, force: bool) {
    a.Evict? && a.t == t && t < |s.threads| && s.threads[t].MakeSpace? && s.threads[t].force == force
  }

  predicate FindsLimit(s: State, a: Action, t: nat, c: nat) {
    (a == PlaceBatch(t) || a == GrowCache(t)) && c < |s.lists| && s.lists[c].cache == s.lists[c].maxCache
  }

  lemma PlaceStage(cfg: Config, s: State, a: Action, c: nat, batch: seq<Obj>, soft: bool, hard: bool, full: bool)
    requires Inv(cfg, s) && Enabled(cfg, s, a) && c < |cfg.move| && InInsert(cfg, s.threads[a.t], c, batch, soft, hard, full)
    requires a.PlaceBatch? || a.GrowCache?
    ensures var s' := Next(cfg, s, a);
            a.t < |s'.threads| && InInsert(cfg, s'.threads[a.t], c, batch, soft, hard, full || FindsLimit(s, a, a.t, c))
  {
    hide Inv, Relabel, CentralOk, NoDup, OfClass, FetchAll, ReleaseOne;
    Here(cfg, s, a.t);
  }

  lemma EvictStage(cfg: Config, s: State, a: Action, c: nat, batch: seq<Obj>, soft: bool, hard: bool, full: bool)
    requires Inv(cfg, s) && Enabled(cfg, s, a) && c < |cfg.move| && InInsert(cfg, s.threads[a.t], c, batch, soft, hard, full)
    requires a.Evict? || a.ShrinkCache?
    ensures var s' := Next(cfg, s, a);
            && a.t < |s'.threads|
            && InInsert(cfg, s'.threads[a.t], c, batch, soft || TriesEvict(s, a, a.t, false), hard || TriesEvict(s, a, a.t, true),
                        full)
  {
    hide Inv, Relabel, CentralOk, NoDup, OfClass, FetchAll, ReleaseOne;
    Here(cfg, s, a.t);
  }

  lemma AcquireStage(cfg: Config, s: State, a: Action, c: nat, batch: seq<Obj>, soft: bool, hard: bool, full: bool)
    requires Inv(cfg, s) && Enabled(cfg, s, a) && c < |cfg.move| && InInsert(cfg, s.threads[a.t], c, batch, soft, hard, full)
    requires a.Acquire?
    ensures var s' := Next(cfg, s, a); a.t < |s'.threads| && InInsert(cfg, s'.threads[a.t], c, batch, soft, hard, full)
  {
    hide Inv, AfterInsert, Attempts, OfClass, NoDup;
  }

  lemma ReleaseStage(cfg: Config, s: State, a: Action, c: nat, batch: seq<Obj>, soft: bool, hard: bool, full: bool)
    requires Inv(cfg, s) && Enabled(cfg, s, a) && c < |cfg.move| && InInsert(cfg, s.threads[a.t], c, batch, soft, hard, full)
    requires !(a.PlaceBatch? || a.GrowCache? || a.Evict? || a.ShrinkCache? || a.Acquire?)
    ensures var s' := Next(cfg, s, a);
            a.t < |s'.threads| && (s'.threads[a.t].Idle? || InInsert(cfg, s'.threads[a.t], c, batch, soft, hard, full))
  {
    hide Inv, Relabel, ListOk, ReleaseOne, Attempts, OfClass, NoDup;
    assert a.ReleaseNext? || a.DeleteSpan? || a.ReleaseDone?;
    if a.ReleaseNext? {
      Here(cfg, s, a.t);
      HeldHere(cfg, s, a.t, s.threads[a.t].rest[0]);
    }
  }

  ghost predicate Tried(trace: seq<State>, actions: seq<Action>, t: nat, force: bool, m: nat, i: nat) {
    exists j :: m < j < i <= |actions| < |trace| && TriesEvict(trace[j], actions[j], t, force)
  }

  ghost predicate AtLimit(trace: seq<State>, actions: seq<Action>, t: nat, c: nat, m: nat, i: nat) {
    exists j :: m < j < i <= |actions| < |trace| && FindsLimit(trace[j], actions[j], t, c)
  }

  lemma TriedMore(trace: seq<State>, actions: seq<Action>, t: nat, force: bool, m: nat, i: nat)
    requires m < i < |actions| < |trace|
    ensures Tried(trace, actions, t, force, m, i + 1) <==>
            Tried(trace, actions, t, force, m, i) || TriesEvict(trace[i], actions[i], t, force)
  {
    if Tried(trace, actions, t, force, m, i) {
      var j :| m < j < i && TriesEvict(trace[j], actions[j], t, force);
      assert Tried(trace, actions, t, force, m, i + 1);
    }
    if TriesEvict(trace[i], actions[i], t, force) {
      assert Tried(trace, actions, t, force, m, i + 1);
    }
  }

  lemma AtLimitMore(trace: seq<State>, actions: seq<Action>, t: nat, c: nat, m: nat, i: nat)
    requires m < i < |actions| < |trace|
    ensures AtLimit(trace, actions, t, c, m, i + 1) <==>
            AtLimit(trace, actions, t, c, m, i) || FindsLimit(trace[i], actions[i], t, c)
  {
    if AtLimit(trace, actions, t, c, m, i) {
      var j :| m < j < i && FindsLimit(trace[j], actions[j], t, c);
      assert AtLimit(trace, actions, t, c, m, i + 1);
    }
    if FindsLimit(trace[i], actions[i], t, c) {
      assert AtLimit(trace, actions, t, c, m, i + 1);
    }
  }

  ghost predicate Inserting(cfg: Config, trace: seq<State>, actions: seq<Action>, t: nat, c: nat, batch: seq<Obj>, m: nat, i: nat) {
    && c < |cfg.move| && i <= |actions| < |trace| && t < |trace[i].threads|
    && InInsert(cfg, trace[i].threads[t], c, batch, Tried(trace, actions, t, false, m, i), Tried(trace, actions, t, true, m, i),
                AtLimit(trace, actions, t, c, m, i))
  }

  lemma InsertingStep(cfg: Config, trace: seq<State>, actions: seq<Action>, t: nat, c: nat, batch: seq<Obj>, m: nat, i: nat)
    requires m < i < |actions| < |trace| && Inserting(cfg, trace, actions, t, c, batch, m, i) && Inv(cfg, trace[i])
    requires Enabled(cfg, trace[i], actions[i]) && trace[i + 1] == Next(cfg, trace[i], actions[i])
    requires t < |trace[i + 1].threads| && !trace[i + 1].threads[t].Idle?
    ensures Inserting(cfg, trace, actions, t, c, batch, m, i + 1)
  {
    hide Inv, Enabled, Next, InInsert, Tried, AtLimit;
    var a, s := actions[i], trace[i];
    TriedMore(trace, actions, t, false, m, i);
    TriedMore(trace, actions, t, true, m, i);
    AtLimitMore(trace, actions, t, c, m, i);
    var soft, hard, full := Tried(trace, actions, t, false, m, i), Tried(trace, actions, t, true, m, i), AtLimit(trace, actions, t, c, m, i);
    if a.t != t {
      OthersKeep(cfg, s, a, t);
    } else if a.PlaceBatch? || a.GrowCache? {
      PlaceStage(cfg, s, a, c, batch, soft, hard, full);
    } else if a.Evict? || a.ShrinkCache? {
      EvictStage(cfg, s, a, c, batch, soft, hard, full);
    } else if a.Acquire? {
      AcquireStage(cfg, s, a, c, batch, soft, hard, full);
    } else {
      ReleaseStage(cfg, s, a, c, batch, soft, hard, full);
    }
  }

  lemma {:induction false} InsertProgress(cfg: Config, trace: seq<State>, actions: seq<Action>, t: nat, c: nat, batch: seq<Obj>, m: nat, i: nat)
    requires IsRun(cfg, trace, actions) && m < i <= |actions| < |trace| && actions[m] == BeginInsert(t, c, batch)
    requires forall j :: m < j <= i ==> t < |trace[j].threads| && !trace[j].threads[t].Idle?
    ensures Inserting(cfg, trace, actions, t, c, batch, m, i)
    decreases i
  {
    hide Inv, Enabled, Next, Init, Inserting;
    EveryRun(cfg, trace, actions, i - 1);
    RunStep(cfg, trace, actions, i);
    hide IsRun;
    if i == m + 1 {
      InsertingStart(cfg, trace, actions, t, c, batch, m);
    } else {
      InsertProgress(cfg, trace, actions, t, c, batch, m, i - 1);
      InsertingStep(cfg, trace, actions, t, c, batch, m, i - 1);
    }
  }

  lemma InsertingStart(cfg: Config, trace: seq<State>, actions: seq<Action>, t: nat, c: nat, batch: seq<Obj>, m: nat)
    requires m < |actions| < |trace| && actions[m] == BeginInsert(t, c, batch) && Inv(cfg, trace[m])
    requires Enabled(cfg, trace[m], actions[m]) && trace[m + 1] == Next(cfg, trace[m], actions[m])
    ensures Inserting(cfg, trace, actions, t, c, batch, m, m + 1)
  {
    SizesAgree(cfg, trace[m]);
    ConfigOk(cfg, trace[m]);
    hide Inv;
  }

  lemma ConfigOk(cfg: Config, s: State)
    requires Inv(cfg, s)
    ensures |cfg.move| == |cfg.per|
  {
  }

  /**
   * Every call of InsertRange(c, batch) in every run: a batch of the batch size goes back to its
   * spans only if the class was found at its limit, or a slot of another class was tried for
   * twice, without force and then with force.
   */
  lemma ReleasedOnlyAfterTrying(cfg: Config, trace: seq<State>, actions: seq<Action>, t: nat, c: nat, batch: seq<Obj>, m: nat, i: nat)
    requires IsRun(cfg, trace, actions) && m < i <= |actions| < |trace| && actions[m] == BeginInsert(t, c, batch)
    requires forall j :: m < j <= i ==> t < |trace[j].threads| && !trace[j].threads[t].Idle?
    requires var pc := trace[i].threads[t]; pc.Releasing? && pc.after.Leave? && pc.rest != []
    ensures c < |cfg.move|
    ensures |batch| == cfg.move[c] && !AtLimit(trace, actions, t, c, m, i) ==>
              Tried(trace, actions, t, false, m, i) && Tried(trace, actions, t, true, m, i)
  {
    hide Inv, Enabled, Next, Init, Tried, AtLimit, IsRun;
    InsertProgress(cfg, trace, actions, t, c, batch, m, i);
  }

  // ---------------------------------------------------------------- no deadlock

  ghost predicate CanMove(cfg: Config, s: State, t: nat) {
    exists a: Action :: a.t == t && Enabled(cfg, s, a)
  }

  /** A step for a thread in the middle of a call that waits for no lock. */
  function MoveOf(t: nat, pc: Pc): Action {
    match pc
    case Placing(_, _) => PlaceBatch(t)
    case MakeSpace(c, _, _) => Evict(t, c, false)
    case Shrinking(_, _, _, _) => ShrinkCache(t)
    case Releasing(_, rest, _) => if rest == [] then ReleaseDone(t) else ReleaseNext(t)
    case Deleting(_, _, _, _) => DeleteSpan(t)
    case Resume(_, _, _, _) => GrowCache(t)
    case Fetching(_, _) => Fetch(t)
    case Populate(_, _) => AskHeap(t, None)
    case Refill(_, _, _) => ListSpan(t)
    case Refetch(_, _, _) => FetchAgain(t)
    case Fetched(_, _) => Return(t)
    case _ => Acquire(t)
  }

  lemma InCallMoves(cfg: Config, s: State, t: nat)
    requires Inv(cfg, s) && t < |s.threads| && !s.threads[t].Idle?
    ensures Entered(s.threads[t]).None? ==> CanMove(cfg, s, t)
    ensures Entered(s.threads[t]).Some? ==> s.threads[t].c < |s.locks|
    ensures Entered(s.threads[t]).Some? && s.locks[s.threads[t].c] == None ==> CanMove(cfg, s, t)
  {
    ThreadOk(cfg, s, t);
    SizesAgree(cfg, s);
    hide Inv;
    var a := MoveOf(t, s.threads[t]);
    assert a.t == t;
    if Entered(s.threads[t]).None? || s.locks[s.threads[t].c] == None {
      assert Enabled(cfg, s, a);
    }
  }

  lemma SizesAgree(cfg: Config, s: State)
    requires Inv(cfg, s)
    ensures |s.locks| == |s.lists| == |cfg.per|
  {
  }

  lemma LockHolder(cfg: Config, s: State, c: nat)
    requires Inv(cfg, s) && c < |s.locks| && s.locks[c].Some?
    ensures s.locks[c].value < |s.threads| && Holds(s.threads[s.locks[c].value]) == Some(c)
  {
  }

  /**
   * In every state of every run a thread in the middle of a call can take a step, or it waits for
   * one lock, and the thread that has this lock can take a step: nobody waits for a lock while
   * holding another, so there is no deadlock.
   */
  lemma NoDeadlock(cfg: Config, trace: seq<State>, actions: seq<Action>, n: nat, t: nat)
    requires IsRun(cfg, trace, actions) && n < |trace| && t < |trace[n].threads| && !trace[n].threads[t].Idle?
    ensures var (s, pc) := (trace[n], trace[n].threads[t]);
            || CanMove(cfg, s, t)
            || (&& Entered(pc).Some? && Holds(pc).None? && pc.c < |s.locks| && s.locks[pc.c].Some?
                && s.locks[pc.c].value != t && CanMove(cfg, s, s.locks[pc.c].value))
  {
    EveryRun(cfg, trace, actions, n);
    var s, pc := trace[n], trace[n].threads[t];
    hide Inv, IsRun, CanMove;
    InCallMoves(cfg, s, t);
    if Entered(pc).Some? && s.locks[pc.c].Some? {
      LockHolder(cfg, s, pc.c);
      InCallMoves(cfg, s, s.locks[pc.c].value);
    }
  }

  /** How far a thread with a lock is from giving it up, apart from the objects left to release. */
  function Stage(pc: Pc): nat {
    match pc
    case Placing(_, _) => 4
    case Resume(_, _, _, _) => 4
    case MakeSpace(_, _, force) => if force then 2 else 3
    case Shrinking(_, _, _, _) => 2
    case Releasing(_, _, _) => 1
    case Fetching(_, _) => 2
    case Refill(_, _, _) => 3
    case Refetch(_, _, _) => 2
    case Fetched(_, _) => 1
    case _ => 0
  }

  function Left(pc: Pc): nat {
    if pc.Releasing? then |pc.rest| else 0
  }

  /** Thread t has dropped the lock of c, or has it still and is closer to dropping it. */
  predicate Closer(s: State, s': State, t: nat, c: nat)
    requires t < |s.threads|
  {
    && t < |s'.threads| && c < |s'.locks|
    && var pc, pc' := s.threads[t], s'.threads[t];
       || (Holds(pc') == None && s'.locks[c] == None)
       || (Holds(pc') == Some(c) && (Stage(pc') < Stage(pc) || (Stage(pc') == Stage(pc) && Left(pc') < Left(pc))))
  }

  lemma InsertCloser(cfg: Config, s: State, a: Action)
    requires Inv(cfg, s) && Enabled(cfg, s, a) && (a.PlaceBatch? || a.Evict? || a.ShrinkCache? || a.GrowCache?)
    ensures Closer(s, Next(cfg, s, a), a.t, s.threads[a.t].c)
  {
    hide Inv, ListOk, Relabel;
    Here(cfg, s, a.t);
  }

  lemma ReleaseCloser(cfg: Config, s: State, a: Action)
    requires Inv(cfg, s) && Enabled(cfg, s, a) && (a.ReleaseNext? || a.ReleaseDone? || a.Return?)
    ensures Closer(s, Next(cfg, s, a), a.t, s.threads[a.t].c)
  {
    hide Inv, ListOk, Relabel, ReleaseOne;
    Here(cfg, s, a.t);
  }

  lemma FetchCloser(cfg: Config, s: State, a: Action)
    requires Inv(cfg, s) && Enabled(cfg, s, a) && (a.Fetch? || a.ListSpan? || a.FetchAgain?)
    ensures Closer(s, Next(cfg, s, a), a.t, s.threads[a.t].c)
  {
    hide Inv, ListOk, Relabel, FetchAll;
    Here(cfg, s, a.t);
  }

  /**
   * A thread with a lock never waits and gives the lock up after finitely many steps of its own:
   * each of them drops the lock, or comes closer to dropping it.
   */
  lemma HolderFinishes(cfg: Config, s: State, a: Action)
    requires Inv(cfg, s) && Enabled(cfg, s, a) && Holds(s.threads[a.t]).Some?
    ensures Closer(s, Next(cfg, s, a), a.t, s.threads[a.t].c)
  {
    hide Inv, Next, Closer;
    if a.PlaceBatch? || a.Evict? || a.ShrinkCache? || a.GrowCache? {
      InsertCloser(cfg, s, a);
    } else if a.ReleaseNext? || a.ReleaseDone? || a.Return? {
      ReleaseCloser(cfg, s, a);
    } else {
      FetchCloser(cfg, s, a);
    }
  }

  /** In every reachable state an object is at one place at most, and one handed out is nowhere else. */
  lemma OnePlace(cfg: Config, trace: seq<State>, actions: seq<Action>, n: nat, o: Obj, p: Place, q: Place)
    requires IsRun(cfg, trace, actions) && n < |trace| && At(trace[n].lists, trace[n].threads, p, o)
    ensures At(trace[n].lists, trace[n].threads, q, o) ==> p == q
    ensures o in trace[n].loc && trace[n].loc[o] != Out
  {
    EveryRun(cfg, trace, actions, n);
  }

  /** An object of a listed span that is not free: in a slot of the class, in a thread's hands, or handed out. */
  ghost predicate InUseSomewhere(s: State, c: nat, o: Obj) {
    o in s.loc && (s.loc[o] == Out || (!s.loc[o].Free? && At(s.lists, s.threads, s.loc[o], o)))
  }

  /** In every reachable state the span's counter is the number of its objects in use, and none is lost. */
  lemma SpanConserved(cfg: Config, trace: seq<State>, actions: seq<Action>, n: nat, c: nat, id: nat)
    requires IsRun(cfg, trace, actions) && n < |trace| && c < |trace[n].lists| && id in trace[n].lists[c].spans
    ensures c < |cfg.per| && c < |trace[n].locks|
    ensures var s := trace[n]; var sp := s.lists[c].spans[id];
            && sp.refcount == |set o | o in ObjectSet(id, cfg.per[c]) && !IsFree(s.lists[c], o)|
            && (s.locks[c] == None ==> 0 < sp.refcount)
            && forall o :: o in ObjectSet(id, cfg.per[c]) && !IsFree(s.lists[c], o) ==> InUseSomewhere(s, c, o)
  {
    EveryRun(cfg, trace, actions, n);
    SpanConservedIn(cfg, trace[n], c, id);
  }

  lemma SpanConservedIn(cfg: Config, s: State, c: nat, id: nat)
    requires Inv(cfg, s) && c < |s.lists| && id in s.lists[c].spans
    ensures c < |cfg.per| && c < |s.locks|
    ensures var sp := s.lists[c].spans[id];
            && sp.refcount == |set o | o in ObjectSet(id, cfg.per[c]) && !IsFree(s.lists[c], o)|
            && (s.locks[c] == None ==> 0 < sp.refcount)
            && forall o :: o in ObjectSet(id, cfg.per[c]) && !IsFree(s.lists[c], o) ==> InUseSomewhere(s, c, o)
  {
    var l := s.lists[c];
    assert ListOk(cfg, c, l, Unused(s.locks, s.threads, c));
    assert SpanOk(id, l.spans[id], cfg.per[c]);
    assert id in s.heap && s.heap[id] == InClass(c);
    hide Inv, CentralOk;
    var out := set o | o in ObjectSet(id, cfg.per[c]) && !IsFree(l, o);
    assert |out| == l.spans[id].refcount by {
      OutCount(l, id, cfg.per[c]);
    }
    forall o | o in out ensures InUseSomewhere(s, c, o) {
      OutSomewhere(cfg, s, c, o);
    }
  }

  lemma OutCount(l: Central, id: nat, per: nat)
    requires id in l.spans && SpanOk(id, l.spans[id], per)
    ensures l.spans[id].refcount == |set o | o in ObjectSet(id, per) && !IsFree(l, o)|
  {
    var sp := l.spans[id];
    var all := ObjectSet(id, per);
    var free := set o | o in sp.objects;
    var out := set o | o in all && !IsFree(l, o);
    NoDupCard(sp.objects);
    assert all == out + free;
  }

  lemma OutSomewhere(cfg: Config, s: State, c: nat, o: Obj)
    requires Inv(cfg, s) && c < |s.lists| && OfClass(cfg, s.heap, o, c) && !IsFree(s.lists[c], o)
    ensures InUseSomewhere(s, c, o)
  {
    hide LocksInv, ListsInv, HeapInv, PcsInv;
    assert o in s.loc;
    assert At(s.lists, s.threads, Free(c), o) <==> IsFree(s.lists[c], o);
    if s.loc[o].Free? {
      FreeHere(cfg, s, c, o);
    }
  }

  /** A free object is free in the class of its span. */
  lemma FreeHere(cfg: Config, s: State, c: nat, o: Obj)
    requires Inv(cfg, s) && o in s.loc && OfClass(cfg, s.heap, o, c) && s.loc[o].Free?
    ensures s.loc[o] == Free(c)
  {
    assert At(s.lists, s.threads, s.loc[o], o);
    FreeOfClass(cfg, s, s.loc[o].c, o);
  }

  /** In every reachable state a class's counter is the number of its free objects, and its span lists are right. */
  lemma CountersRight(cfg: Config, trace: seq<State>, actions: seq<Action>, n: nat, c: nat)
    requires IsRun(cfg, trace, actions) && n < |trace| && c < |trace[n].lists|
    ensures c < |cfg.per| && CentralOk(trace[n].lists[c], cfg.per[c])
  {
    EveryRun(cfg, trace, actions, n);
    var s := trace[n];
    assert ListOk(cfg, c, s.lists[c], Unused(s.locks, s.threads, c));
  }
}
