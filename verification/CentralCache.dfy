/**
 * All size classes of the central free list under any number of threads. A thread takes a class
 * lock, drops it while it talks to the page heap, and trades it for another class's lock while it
 * steals a transfer-cache slot; every interleaving of these steps is a run of this machine.
 */
module CentralCache {
  import opened Collections
  import opened CentralList
  import Partition

  const MAX_SLOTS: nat := 64

  /** Objects per span, objects per batch and slot limit, for each class. */
  datatype Config = Config(per: seq<nat>, move: seq<nat>, max: seq<int>)

  predicate ValidConfig(cfg: Config) {
    && |cfg.move| == |cfg.per| && |cfg.max| == |cfg.per|
    && (forall c :: 0 <= c < |cfg.per| ==> 0 < cfg.per[c] && 0 < cfg.max[c] <= MAX_SLOTS)
  }

  lemma BatchesFit(batch: nat)
    requires 0 < batch
    ensures forall m: nat {:trigger m * batch} :: m * batch <= 1048576 <==> m <= 1048576 / batch
  {
    forall m: nat ensures m * batch <= 1048576 <==> m <= 1048576 / batch {
      Partition.DivBounds(1048576, batch);
      if m <= 1048576 / batch {
        Partition.MulLe(m, 1048576 / batch, batch);
      } else {
        Partition.MulLe(1048576 / batch + 1, m, batch);
      }
    }
  }

  /** The slot limit Init gives a class: the most batches, up to 64, that fit a megabyte, and one in any case. */
  function SlotLimit(bytes: nat, objects: nat): (m: int)
    requires 0 < bytes && 0 < objects
    ensures 0 < m <= MAX_SLOTS
    ensures m == 1 || m * (bytes * objects) <= 1048576
    ensures m == MAX_SLOTS || 1048576 < (m + 1) * (bytes * objects)
  {
    BatchesFit(bytes * objects);
    var fit := 1048576 / (bytes * objects);
    var most := if 1 < fit then fit else 1;
    if MAX_SLOTS < most then MAX_SLOTS else most
  }

  // ---------------------------------------------------------------- threads

  /** What follows a release: leave, or go back to the class that wanted a slot. */
  datatype After = Leave | Evicted(home: nat, batch: seq<Obj>, ok: bool, force: bool)

  datatype Pc =
    | Idle
    | Insert(c: nat, batch: seq<Obj>)                                  // InsertRange, wants c
    | Placing(c: nat, batch: seq<Obj>)                                 // holds c
    | MakeSpace(c: nat, batch: seq<Obj>, force: bool)                  // holds c, about to evict
    | Shrink(c: nat, home: nat, batch: seq<Obj>, force: bool)          // wants c, home dropped
    | Shrinking(c: nat, home: nat, batch: seq<Obj>, force: bool)       // holds c
    | Releasing(c: nat, rest: seq<Obj>, after: After)                  // holds c
    | Deleting(c: nat, rest: seq<Obj>, after: After, id: nat)          // c dropped, span to page heap
    | Relock(c: nat, rest: seq<Obj>, after: After)                     // wants c
    | Back(c: nat, batch: seq<Obj>, ok: bool, force: bool)             // wants c again
    | Resume(c: nat, batch: seq<Obj>, ok: bool, force: bool)           // holds c
    | Remove(c: nat, n: nat)                                           // RemoveRange, wants c
    | Fetching(c: nat, n: nat)                                         // holds c
    | Populate(c: nat, n: nat)                                         // c dropped, asks page heap
    | Populated(c: nat, n: nat, got: Option<nat>)                      // wants c
    | Refill(c: nat, n: nat, got: Option<nat>)                         // holds c
    | Refetch(c: nat, n: nat, added: Option<nat>)                      // holds c, new span listed
    | Fetched(c: nat, batch: seq<Obj>)                                 // holds c, about to return

  function Holds(pc: Pc): Option<nat> {
    match pc
    case Placing(c, _) => Some(c)
    case MakeSpace(c, _, _) => Some(c)
    case Shrinking(c, _, _, _) => Some(c)
    case Releasing(c, _, _) => Some(c)
    case Resume(c, _, _, _) => Some(c)
    case Fetching(c, _) => Some(c)
    case Refill(c, _, _) => Some(c)
    case Refetch(c, _, _) => Some(c)
    case Fetched(c, _) => Some(c)
    case _ => None
  }

  /** The state a waiting thread enters with the lock. */
  function Entered(pc: Pc): Option<Pc> {
    match pc
    case Insert(c, batch) => Some(Placing(c, batch))
    case Shrink(c, home, batch, force) => Some(Shrinking(c, home, batch, force))
    case Relock(c, rest, after) => Some(Releasing(c, rest, after))
    case Back(c, batch, ok, force) => Some(Resume(c, batch, ok, force))
    case Remove(c, n) => Some(Fetching(c, n))
    case Populated(c, n, got) => Some(Refill(c, n, got))
    case _ => None
  }

  function AfterBatch(after: After): seq<Obj> {
    if after.Leave? then [] else after.batch
  }

  /** The objects in a thread's hands. */
  function HeldBy(pc: Pc): seq<Obj> {
    match pc
    case Insert(_, batch) => batch
    case Placing(_, batch) => batch
    case MakeSpace(_, batch, _) => batch
    case Shrink(_, _, batch, _) => batch
    case Shrinking(_, _, batch, _) => batch
    case Releasing(_, rest, after) => rest + AfterBatch(after)
    case Deleting(_, rest, after, _) => rest + AfterBatch(after)
    case Relock(_, rest, after) => rest + AfterBatch(after)
    case Back(_, batch, _, _) => batch
    case Resume(_, batch, _, _) => batch
    case Fetched(_, batch) => batch
    case _ => []
  }

  /** The span a thread has between the page heap and a class. */
  function PrivateSpan(pc: Pc): Option<nat> {
    match pc
    case Deleting(_, _, _, id) => Some(id)
    case Populated(_, _, got) => got
    case Refill(_, _, got) => got
    case _ => None
  }

  /** A slot taken from another class and not yet added to the own one. */
  function Credit(pc: Pc): nat {
    match pc
    case Releasing(_, _, after) => if after.Evicted? && after.ok then 1 else 0
    case Deleting(_, _, after, _) => if after.Evicted? && after.ok then 1 else 0
    case Relock(_, _, after) => if after.Evicted? && after.ok then 1 else 0
    case Back(_, _, ok, _) => if ok then 1 else 0
    case Resume(_, _, ok, _) => if ok then 1 else 0
    case _ => 0
  }

  // ---------------------------------------------------------------- the machine

  /** Who has a span the page heap handed out. */
  datatype Owner = InClass(c: nat) | Private(t: nat)

  /** Where an object is. */
  datatype Place = Free(c: nat) | Slot(c: nat, k: nat) | Held(t: nat) | Out

  /** The last component records, for every object of a listed span, where it is. */
  datatype State = State(
    lists: seq<Central>, locks: seq<Option<nat>>, heap: map<nat, Owner>, threads: seq<Pc>, loc: map<Obj, Place>)

  datatype Action =
    | BeginInsert(t: nat, c: nat, batch: seq<Obj>)
    | BeginRemove(t: nat, c: nat, n: nat)
    | Acquire(t: nat)
    | PlaceBatch(t: nat)
    | Evict(t: nat, victim: nat, pass: bool)     // pass: what the reads without the lock suggested
    | ShrinkCache(t: nat)
    | ReleaseNext(t: nat)
    | DeleteSpan(t: nat)
    | ReleaseDone(t: nat)
    | GrowCache(t: nat)
    | Fetch(t: nat)
    | AskHeap(t: nat, answer: Option<nat>)
    | ListSpan(t: nat)
    | FetchAgain(t: nat)
    | Return(t: nat)

  function Relabel(loc: map<Obj, Place>, moved: seq<Obj>, p: Place): map<Obj, Place> {
    map o | o in loc :: if o in moved then p else loc[o]
  }

  predicate OfClass(cfg: Config, heap: map<nat, Owner>, o: Obj, c: nat) {
    o.span in heap && heap[o.span] == InClass(c) && c < |cfg.per| && o.index < cfg.per[c]
  }

  function SetPc(s: State, t: nat, pc: Pc): State
    requires t < |s.threads|
  {
    s.(threads := s.threads[t := pc])
  }

  function SetList(s: State, c: nat, l: Central): State
    requires c < |s.lists|
  {
    s.(lists := s.lists[c := l])
  }

  function Unlock(s: State, c: nat): State
    requires c < |s.locks|
  {
    s.(locks := s.locks[c := None])
  }

  /** Puts the batch into the next slot. */
  function Store(s: State, t: nat, c: nat, batch: seq<Obj>, cache: int): State
    requires t < |s.threads| && c < |s.lists|
  {
    var l := s.lists[c];
    SetPc(SetList(s, c, l.(slots := l.slots + [batch], cache := cache)), t, Releasing(c, [], Leave))
      .(loc := Relabel(s.loc, batch, Slot(c, |l.slots|)))
  }

  /** Takes the batch out of the last slot. */
  function Pop(s: State, t: nat, c: nat, cache: int, pc: Pc): State
    requires t < |s.threads| && c < |s.lists| && s.lists[c].slots != []
  {
    var l := s.lists[c];
    var last := |l.slots| - 1;
    SetPc(SetList(s, c, l.(slots := l.slots[..last], cache := cache)), t, pc)
      .(loc := Relabel(s.loc, l.slots[last], Held(t)))
  }

  /** Without a slot: a second try with force, or the objects go back to their spans. */
  function NoSpace(c: nat, batch: seq<Obj>, force: bool): Pc {
    if force then Releasing(c, batch, Leave) else MakeSpace(c, batch, true)
  }

  ghost predicate Enabled(cfg: Config, s: State, a: Action) {
    && a.t < |s.threads|
    && var pc := s.threads[a.t];
       match a
       case BeginInsert(t, c, batch) =>
         && pc.Idle? && c < |cfg.per| && NoDup(batch)
         && forall o :: o in batch ==> o in s.loc && s.loc[o] == Out && OfClass(cfg, s.heap, o, c)
       case BeginRemove(t, c, n) => pc.Idle? && c < |cfg.per| && 0 < n
       case Acquire(t) => Entered(pc).Some? && pc.c < |s.locks| && s.locks[pc.c] == None
       case PlaceBatch(t) => pc.Placing?
       case Evict(t, victim, pass) => pc.MakeSpace? && victim < |cfg.per|
       case ShrinkCache(t) => pc.Shrinking?
       case ReleaseNext(t) => pc.Releasing? && pc.rest != []
       case DeleteSpan(t) => pc.Deleting?
       case ReleaseDone(t) => pc.Releasing? && pc.rest == []
       case GrowCache(t) => pc.Resume?
       case Fetch(t) => pc.Fetching?
       case AskHeap(t, answer) => pc.Populate? && (answer.Some? ==> answer.value !in s.heap)
       case ListSpan(t) => pc.Refill?
       case FetchAgain(t) => pc.Refetch?
       case Return(t) => pc.Fetched?
  }

  // ---------------------------------------------------------------- what every run keeps

  /** A lock is marked taken exactly by the thread that is in a step that holds it. */
  ghost predicate LocksInv(locks: seq<Option<nat>>, threads: seq<Pc>) {
    && (forall c :: 0 <= c < |locks| && locks[c].Some? ==>
          locks[c].value < |threads| && Holds(threads[locks[c].value]) == Some(c))
    && (forall t :: 0 <= t < |threads| && Holds(threads[t]).Some? ==>
          Holds(threads[t]).value < |locks| && locks[Holds(threads[t]).value] == Some(t))
  }

  ghost predicate CacheOk(cfg: Config, c: nat, l: Central)
    requires c < |cfg.max| && c < |cfg.move|
  {
    && |l.slots| <= l.cache <= l.maxCache && l.maxCache == cfg.max[c]
    && (forall k :: 0 <= k < |l.slots| ==> NoDup(l.slots[k]) && |l.slots[k]| == cfg.move[c])
  }

  /** The span just listed and not yet drawn on, while its thread has the lock. */
  function Unused(locks: seq<Option<nat>>, threads: seq<Pc>, c: nat): set<nat>
    requires c < |locks|
  {
    if locks[c].Some? && locks[c].value < |threads| then AddedBy(threads[locks[c].value]) else {}
  }

  function AddedBy(pc: Pc): set<nat> {
    if pc.Refetch? && pc.added.Some? then {pc.added.value} else {}
  }

  ghost predicate ListOk(cfg: Config, c: nat, l: Central, unused: set<nat>)
    requires c < |cfg.per| && c < |cfg.max| && c < |cfg.move|
  {
    && CacheOk(cfg, c, l) && CentralOk(l, cfg.per[c]) && InUse(l, unused)
    && (unused == {} || (l.nonempty != [] && unused == {l.nonempty[0]}))
  }

  ghost predicate ListsInv(cfg: Config, lists: seq<Central>, locks: seq<Option<nat>>, threads: seq<Pc>) {
    && ValidConfig(cfg) && |lists| == |cfg.per| && |locks| == |lists|
    && (forall c :: 0 <= c < |lists| ==> ListOk(cfg, c, lists[c], Unused(locks, threads, c)))
  }

  /** A span is listed by a class, or in one thread's hands, exactly as the owner map says. */
  ghost predicate HeapInv(lists: seq<Central>, threads: seq<Pc>, heap: map<nat, Owner>) {
    && (forall c, id {:trigger id in lists[c].spans} ::
          0 <= c < |lists| && id in lists[c].spans ==> id in heap && heap[id] == InClass(c))
    && (forall t :: 0 <= t < |threads| && PrivateSpan(threads[t]).Some? ==>
          PrivateSpan(threads[t]).value in heap && heap[PrivateSpan(threads[t]).value] == Private(t))
    && (forall id :: id in heap && heap[id].InClass? ==> heap[id].c < |lists| && id in lists[heap[id].c].spans)
    && (forall id :: id in heap && heap[id].Private? ==>
          heap[id].t < |threads| && PrivateSpan(threads[heap[id].t]) == Some(id))
  }

  ghost predicate BatchIn(cfg: Config, heap: map<nat, Owner>, batch: seq<Obj>, c: nat) {
    c < |cfg.per| && forall o :: o in batch ==> OfClass(cfg, heap, o, c)
  }

  /** A batch that may go into a slot of its class. */
  ghost predicate FullBatch(cfg: Config, heap: map<nat, Owner>, batch: seq<Obj>, c: nat) {
    BatchIn(cfg, heap, batch, c) && c < |cfg.move| && |batch| == cfg.move[c]
  }

  ghost predicate AfterOk(cfg: Config, heap: map<nat, Owner>, after: After) {
    after.Evicted? ==> FullBatch(cfg, heap, after.batch, after.home)
  }

  /** The objects in a thread's hands are of the class it works on. */
  ghost predicate PcOk(cfg: Config, heap: map<nat, Owner>, pc: Pc) {
    && NoDup(HeldBy(pc))
    && (!pc.Idle? ==> pc.c < |cfg.per|)
    && match pc
       case Idle => true
       case Insert(c, batch) => BatchIn(cfg, heap, batch, c)
       case Placing(c, batch) => BatchIn(cfg, heap, batch, c)
       case MakeSpace(c, batch, _) => FullBatch(cfg, heap, batch, c)
       case Shrink(_, home, batch, _) => FullBatch(cfg, heap, batch, home)
       case Shrinking(_, home, batch, _) => FullBatch(cfg, heap, batch, home)
       case Releasing(c, rest, after) => BatchIn(cfg, heap, rest, c) && AfterOk(cfg, heap, after)
       case Deleting(c, rest, after, _) => BatchIn(cfg, heap, rest, c) && AfterOk(cfg, heap, after)
       case Relock(c, rest, after) => BatchIn(cfg, heap, rest, c) && AfterOk(cfg, heap, after)
       case Back(c, batch, _, _) => FullBatch(cfg, heap, batch, c)
       case Resume(c, batch, _, _) => FullBatch(cfg, heap, batch, c)
       case Fetched(c, batch) => BatchIn(cfg, heap, batch, c)
       case Remove(_, n) => 0 < n
       case Fetching(_, n) => 0 < n
       case Populate(_, n) => 0 < n
       case Populated(_, n, _) => 0 < n
       case Refill(_, n, _) => 0 < n
       case Refetch(_, n, _) => 0 < n
  }

  ghost predicate PcsInv(cfg: Config, heap: map<nat, Owner>, threads: seq<Pc>) {
    forall t :: 0 <= t < |threads| ==> PcOk(cfg, heap, threads[t])
  }

  /** The object is at the place. */
  ghost predicate At(lists: seq<Central>, threads: seq<Pc>, p: Place, o: Obj) {
    match p
    case Free(c) => c < |lists| && IsFree(lists[c], o)
    case Slot(c, k) => c < |lists| && k < |lists[c].slots| && o in lists[c].slots[k]
    case Held(t) => t < |threads| && o in HeldBy(threads[t])
    case Out => false
  }

  /** The record of places is right, so no object is at two places. */
  ghost predicate LocInv(lists: seq<Central>, threads: seq<Pc>, loc: map<Obj, Place>) {
    && (forall o :: o in loc && loc[o] != Out ==> At(lists, threads, loc[o], o))
    && (forall p, o {:trigger At(lists, threads, p, o)} :: At(lists, threads, p, o) ==> o in loc && loc[o] == p)
  }

  /** The record covers exactly the objects of the listed spans, and slots hold objects of their class. */
  ghost predicate DomInv(cfg: Config, heap: map<nat, Owner>, loc: map<Obj, Place>) {
    && (forall o :: o in loc <==> o.span in heap && heap[o.span].InClass? && OfClass(cfg, heap, o, heap[o.span].c))
    && (forall o :: o in loc && loc[o].Slot? ==> heap[o.span] == InClass(loc[o].c))
  }

  ghost predicate Inv(cfg: Config, s: State) {
    && LocksInv(s.locks, s.threads)
    && ListsInv(cfg, s.lists, s.locks, s.threads)
    && HeapInv(s.lists, s.threads, s.heap)
    && PcsInv(cfg, s.heap, s.threads)
    && LocInv(s.lists, s.threads, s.loc)
    && DomInv(cfg, s.heap, s.loc)
  }

  // ---------------------------------------------------------------- the steps

  /** The class a thread works on is there, and its fields are consistent. */
  lemma Here(cfg: Config, s: State, t: nat)
    requires Inv(cfg, s) && t < |s.threads| && Holds(s.threads[t]).Some?
    ensures var c := Holds(s.threads[t]).value;
            && c < |cfg.per| && c < |cfg.move| && c < |cfg.max| && c < |s.lists| && c < |s.locks| && s.locks[c] == Some(t)
            && ListOk(cfg, c, s.lists[c], AddedBy(s.threads[t])) && c == s.threads[t].c
  {
    var c := Holds(s.threads[t]).value;
    assert ListOk(cfg, c, s.lists[c], Unused(s.locks, s.threads, c));
  }

  /** An object in the hands of a thread releasing to a class is not free and its span is listed there. */
  lemma HeldHere(cfg: Config, s: State, t: nat, o: Obj)
    requires Inv(cfg, s) && t < |s.threads| && s.threads[t].Releasing? && o in s.threads[t].rest
    ensures var c := s.threads[t].c;
            && c < |s.lists| && c < |cfg.per| && o.span in s.lists[c].spans && o.index < cfg.per[c] && !IsFree(s.lists[c], o)
            && o in s.loc && s.loc[o] == Held(t) && OfClass(cfg, s.heap, o, c)
  {
    hide LocksInv, ListsInv;
    var pc := s.threads[t];
    assert PcOk(cfg, s.heap, pc);
    Here(cfg, s, t);
    hide ListOk, PcsInv, IsFree;
    assert o in HeldBy(pc);
    assert At(s.lists, s.threads, Held(t), o);
    assert !At(s.lists, s.threads, Free(pc.c), o);
  }

  function PlaceStep(cfg: Config, s: State, t: nat): State
    requires t < |s.threads| && s.threads[t].Placing? && s.threads[t].c < |s.lists| && s.threads[t].c < |cfg.move|
  {
    var Placing(c, batch) := s.threads[t];
    var l := s.lists[c];
    if |batch| != cfg.move[c] then SetPc(s, t, Releasing(c, batch, Leave))
    else if |l.slots| < l.cache then Store(s, t, c, batch, l.cache)
    else if l.cache == l.maxCache then SetPc(s, t, Releasing(c, batch, Leave))
    else SetPc(s, t, MakeSpace(c, batch, false))
  }

  function EvictStep(s: State, t: nat, victim: nat, pass: bool): State
    requires t < |s.threads| && s.threads[t].MakeSpace? && s.threads[t].c < |s.locks|
  {
    var MakeSpace(c, batch, force) := s.threads[t];
    if victim == c || !pass then SetPc(s, t, NoSpace(c, batch, force))
    else SetPc(Unlock(s, c), t, Shrink(victim, c, batch, force))
  }

  function ShrinkStep(s: State, t: nat): State
    requires t < |s.threads| && s.threads[t].Shrinking? && s.threads[t].c < |s.lists|
    requires |s.lists[s.threads[t].c].slots| <= s.lists[s.threads[t].c].cache
  {
    var Shrinking(c, home, batch, force) := s.threads[t];
    var l := s.lists[c];
    if l.cache == 0 || (|l.slots| == l.cache && !force) then
      SetPc(s, t, Releasing(c, [], Evicted(home, batch, false, force)))
    else if |l.slots| == l.cache then
      Pop(s, t, c, l.cache - 1, Releasing(c, l.slots[|l.slots| - 1], Evicted(home, batch, true, force)))
    else
      SetPc(SetList(s, c, l.(cache := l.cache - 1)), t, Releasing(c, [], Evicted(home, batch, true, force)))
  }

  function ReleaseStep(cfg: Config, s: State, t: nat): State
    requires t < |s.threads| && s.threads[t].Releasing? && s.threads[t].rest != []
    requires s.threads[t].c < |s.lists| && s.threads[t].c < |s.locks| && s.threads[t].c < |cfg.per|
    requires s.threads[t].rest[0].span in s.lists[s.threads[t].c].spans
  {
    var Releasing(c, rest, after) := s.threads[t];
    var o, l := rest[0], s.lists[c];
    var s1 := SetList(s, c, ReleaseOne(l, o, cfg.per[c]));
    if Drops(l, o) then
      SetPc(Unlock(s1, c), t, Deleting(c, rest[1..], after, o.span))
        .(heap := s.heap[o.span := Private(t)], loc := map x | x in s.loc && x.span != o.span :: s.loc[x])
    else
      SetPc(s1, t, Releasing(c, rest[1..], after)).(loc := Relabel(s.loc, [o], Free(c)))
  }

  function GrowStep(s: State, t: nat): State
    requires t < |s.threads| && s.threads[t].Resume? && s.threads[t].c < |s.lists|
  {
    var Resume(c, batch, ok, force) := s.threads[t];
    var l := s.lists[c];
    if !ok then SetPc(s, t, NoSpace(c, batch, force))
    else if l.cache < l.maxCache then Store(s, t, c, batch, l.cache + 1)
    else SetPc(s, t, Releasing(c, batch, Leave))
  }

  function TakeStep(s: State, t: nat, c: nat, l': Central, got: seq<Obj>): State
    requires t < |s.threads| && c < |s.lists|
  {
    SetPc(SetList(s, c, l'), t, Fetched(c, got)).(loc := Relabel(s.loc, got, Held(t)))
  }

  ghost function FetchStep(cfg: Config, s: State, t: nat): State
    requires t < |s.threads| && s.threads[t].Fetching? && s.threads[t].c < |s.lists| && s.threads[t].c < |s.locks|
    requires s.threads[t].c < |cfg.per| && s.threads[t].c < |cfg.move|
    requires CentralOk(s.lists[s.threads[t].c], cfg.per[s.threads[t].c])
  {
    var Fetching(c, n) := s.threads[t];
    var l := s.lists[c];
    if n == cfg.move[c] && l.slots != [] then Pop(s, t, c, l.cache, Fetched(c, l.slots[|l.slots| - 1]))
    else if l.nonempty == [] then SetPc(Unlock(s, c), t, Populate(c, n))
    else TakeStep(s, t, c, FetchAll(l, n, cfg.per[c]).0, FetchAll(l, n, cfg.per[c]).1)
  }

  function ListStep(cfg: Config, s: State, t: nat): State
    requires t < |s.threads| && s.threads[t].Refill? && s.threads[t].c < |s.lists| && s.threads[t].c < |cfg.per|
  {
    var Refill(c, n, got) := s.threads[t];
    if got.None? then SetPc(s, t, Refetch(c, n, None)) else
      var id := got.value;
      SetPc(SetList(s, c, AddSpan(s.lists[c], id, cfg.per[c])), t, Refetch(c, n, got))
        .(heap := s.heap[id := InClass(c)],
          loc := s.loc + map x | x in Objects(id, cfg.per[c]) :: Free(c))
  }

  ghost function Next(cfg: Config, s: State, a: Action): State
    requires Inv(cfg, s) && Enabled(cfg, s, a)
  {
    var t := a.t;
    var pc := s.threads[t];
    assert Holds(pc).Some? ==> pc.c < |s.lists| && pc.c < |s.locks| && pc.c < |cfg.per| && pc.c < |cfg.move|
                               && ListOk(cfg, pc.c, s.lists[pc.c], AddedBy(pc)) by {
      if Holds(pc).Some? {
        Here(cfg, s, t);
      }
    }
    match a
    case BeginInsert(_, c, batch) => SetPc(s, t, Insert(c, batch)).(loc := Relabel(s.loc, batch, Held(t)))
    case BeginRemove(_, c, n) => SetPc(s, t, Remove(c, n))
    case Acquire(_) => SetPc(s.(locks := s.locks[pc.c := Some(t)]), t, Entered(pc).value)
    case PlaceBatch(_) => PlaceStep(cfg, s, t)
    case Evict(_, victim, pass) => EvictStep(s, t, victim, pass)
    case ShrinkCache(_) => ShrinkStep(s, t)
    case ReleaseNext(_) => HeldHere(cfg, s, t, pc.rest[0]); ReleaseStep(cfg, s, t)
    case DeleteSpan(_) => SetPc(s, t, Relock(pc.c, pc.rest, pc.after)).(heap := s.heap - {pc.id})
    case ReleaseDone(_) =>
      SetPc(Unlock(s, pc.c), t,
            if pc.after.Leave? then Idle else Back(pc.after.home, pc.after.batch, pc.after.ok, pc.after.force))
    case GrowCache(_) => GrowStep(s, t)
    case Fetch(_) => FetchStep(cfg, s, t)
    case AskHeap(_, answer) =>
      SetPc(s, t, Populated(pc.c, pc.n, answer)).(heap := if answer.Some? then s.heap[answer.value := Private(t)] else s.heap)
    case ListSpan(_) => ListStep(cfg, s, t)
    case FetchAgain(_) =>
      TakeStep(s, t, pc.c, FetchAll(s.lists[pc.c], pc.n, cfg.per[pc.c]).0, FetchAll(s.lists[pc.c], pc.n, cfg.per[pc.c]).1)
    case Return(_) => SetPc(Unlock(s, pc.c), t, Idle).(loc := Relabel(s.loc, pc.batch, Out))
  }
}
