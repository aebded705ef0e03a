/**
 * The ring of blocks whose release is put off, and the routine that pushes a block and releases
 * old ones in batches of four with the lock dropped, for any number of threads.
 */
module FreeRing {
  import opened Collections

  const RING_SIZE: nat := 1024
  const BATCH: nat := 4
  const WORD: nat := 0x1_0000_0000_0000_0000

  // ---------------------------------------------------------------- the ring

  /** A circular buffer; contents lists its entries, oldest first. */
  class FreeQueue<T(0)> {
    const q: array<T>
    var front: nat
    var back: nat
    ghost var contents: seq<T>

    ghost predicate Valid()
      reads this, q
    {
      && q.Length == RING_SIZE && front < RING_SIZE && back < RING_SIZE && |contents| < RING_SIZE
      && front == Wrap(back + |contents|)
      && forall i :: 0 <= i < |contents| ==> contents[i] == q[Wrap(back + i)]
    }

    static function Wrap(i: nat): (w: nat)
      ensures w < RING_SIZE
    {
      i % RING_SIZE
    }

    constructor ()
      ensures Valid() && fresh(q) && contents == []
    {
      q := new T[RING_SIZE];
      front, back, contents := 0, 0, [];
    }

    method Full() returns (full: bool)
      requires Valid()
      ensures full <==> IsFull(contents)
    {
      full := (front + 1) % RING_SIZE == back;
    }

    method Push(x: T)
      requires Valid() && !IsFull(contents)
      modifies this, q
      ensures Valid() && contents == old(contents) + [x]
    {
      q[front] := x;
      front := (front + 1) % RING_SIZE;
      contents := contents + [x];
    }

    method Pop() returns (x: T)
      requires Valid() && contents != []
      modifies `back, `contents
      ensures Valid() && [x] + contents == old(contents)
    {
      x := q[back];
      ghost var was, from := contents, back;
      assert x == was[0] by {
        assert Wrap(back + 0) == back;
      }
      back := Wrap(back + 1);
      contents := contents[1..];
      hide Wrap;
      WrapShift(from, |contents|);
      forall i | 0 <= i < |contents| ensures contents[i] == q[Wrap(back + i)] {
        WrapShift(from, i);
        assert was[i + 1] == q[Wrap(from + (i + 1))];
      }
      assert was == [was[0]] + was[1..];
    }

    static lemma WrapShift(back: nat, i: nat)
      ensures Wrap(Wrap(back + 1) + i) == Wrap(back + (i + 1))
    {
    }

    method Size() returns (n: nat)
      requires Valid()
      ensures n == |contents|
    {
      n := (front + RING_SIZE - back) % RING_SIZE;
    }
  }

  // ---------------------------------------------------------------- the machine

  /** A queued block; tickets number the pushes. */
  datatype Entry = Entry(ticket: nat, size: nat)

  datatype Pc =
    | Idle
    | Want(block: Option<nat>, max: int)                    // ProcessFreeQueue called, a block's size or none
    | Loop(batch: seq<Entry>, max: int)                     // holds the lock
    | Freeing(batch: seq<Entry>, max: int, again: bool)     // lock dropped
    | Relock(max: int)

  /** The last two components record the releases in order and where each pushed block is. */
  datatype Status = InRing | InBatch(t: nat) | Freed

  datatype State = State(ring: seq<Entry>, size: nat, lock: Option<nat>, threads: seq<Pc>,
                         freed: seq<nat>, status: seq<Status>)

  /** The limit as it is compared with the size, an int converted to size_t. */
  function Limit(max: int): (r: nat)
    ensures 0 <= WORD + max && max < WORD ==> r < WORD && (r == max || r == max + WORD)
  {
    if max >= 0 then max else if WORD + max >= 0 then WORD + max else 0
  }

  predicate IsFull<T>(ring: seq<T>) {
    |ring| >= RING_SIZE - 1
  }

  /** The condition of the release loop. */
  predicate Over(s: State, max: int) {
    s.size > Limit(max) || IsFull(s.ring)
  }

  datatype Action =
    | Begin(t: nat, block: Option<nat>, max: int)
    | Enter(t: nat)
    | PopOne(t: nat)
    | Leave(t: nat)
    | FreeOne(t: nat)
    | Done(t: nat)
    | Reenter(t: nat)

  predicate Enabled(s: State, a: Action) {
    && a.t < |s.threads|
    && var pc := s.threads[a.t];
       match a
       case Begin(_, _, _) => pc.Idle?
       case Enter(_) => pc.Want? && s.lock.None?
       case PopOne(_) => pc.Loop? && Over(s, pc.max)
       case Leave(_) => pc.Loop? && !Over(s, pc.max)
       case FreeOne(_) => pc.Freeing? && pc.batch != []
       case Done(_) => pc.Freeing? && pc.batch == []
       case Reenter(_) => pc.Relock? && s.lock.None?
  }

  /** What the checks in the routine demand: room for a push, something to pop, room in the batch. */
  predicate ChecksHold(s: State, a: Action)
    requires Enabled(s, a)
  {
    match a
    case Enter(_) => !IsFull(s.ring)
    case PopOne(t) => s.ring != [] && |s.threads[t].batch| < BATCH
    case _ => true
  }

  function EnterStep(overhead: nat, s: State, t: nat): State
    requires t < |s.threads| && s.threads[t].Want?
  {
    var Want(block, max) := s.threads[t];
    var s1 := s.(lock := Some(t), threads := s.threads[t := Loop([], max)]);
    if block.None? then s1 else
      s1.(ring := s.ring + [Entry(|s.status|, block.value)], size := s.size + block.value + overhead,
          status := s.status + [InRing])
  }

  function PopStep(overhead: nat, s: State, t: nat): State
    requires t < |s.threads| && s.threads[t].Loop? && s.ring != [] && s.ring[0].ticket < |s.status|
    requires s.ring[0].size + overhead <= s.size
  {
    var Loop(batch, max) := s.threads[t];
    var e := s.ring[0];
    var batch' := batch + [e];
    var s1 := s.(ring := s.ring[1..], size := s.size - (e.size + overhead), status := s.status[e.ticket := InBatch(t)]);
    if |batch'| == BATCH then s1.(lock := None, threads := s.threads[t := Freeing(batch', max, true)])
    else s1.(threads := s.threads[t := Loop(batch', max)])
  }

  function FreeStep(s: State, t: nat): State
    requires t < |s.threads| && s.threads[t].Freeing? && s.threads[t].batch != []
    requires s.threads[t].batch[0].ticket < |s.status|
  {
    var Freeing(batch, max, again) := s.threads[t];
    s.(threads := s.threads[t := Freeing(batch[1..], max, again)], freed := s.freed + [batch[0].ticket],
       status := s.status[batch[0].ticket := Freed])
  }

  // ---------------------------------------------------------------- what every run keeps

  function SumSizes(overhead: nat, ring: seq<Entry>): nat {
    if ring == [] then 0 else ring[0].size + overhead + SumSizes(overhead, ring[1..])
  }

  /** The ring holds the latest pushes, oldest first; popped is the number of pushes taken out. */
  predicate RingOk(ring: seq<Entry>, popped: nat) {
    forall i :: 0 <= i < |ring| ==> ring[i].ticket == popped + i
  }

  function BatchOf(pc: Pc): seq<Entry> {
    if pc.Loop? || pc.Freeing? then pc.batch else []
  }

  predicate BatchOk(batch: seq<Entry>, t: nat, status: seq<Status>) {
    && (forall i :: 0 <= i < |batch| ==> batch[i].ticket < |status| && status[batch[i].ticket] == InBatch(t))
    && (forall i, j :: 0 <= i < j < |batch| ==> batch[i].ticket < batch[j].ticket)
  }

  predicate ThreadOk(s: State, t: nat)
    requires t < |s.threads|
  {
    && BatchOk(BatchOf(s.threads[t]), t, s.status)
    && (s.threads[t].Loop? <==> s.lock == Some(t))
    && (s.threads[t].Loop? ==> |s.threads[t].batch| < BATCH)
    && |BatchOf(s.threads[t])| <= BATCH
  }

  predicate FreedOk(freed: seq<nat>, status: seq<Status>) {
    && (forall i :: 0 <= i < |freed| ==> freed[i] < |status| && status[freed[i]] == Freed)
    && (forall i, j :: 0 <= i < j < |freed| ==> freed[i] != freed[j])
  }

  /** With the lock free the ring has room; a thread that has the lock may have just filled it. */
  predicate RoomOk(s: State) {
    |s.ring| < RING_SIZE && (s.lock.None? ==> !IsFull(s.ring))
  }

  ghost predicate Inv(overhead: nat, s: State) {
    && RoomOk(s) && s.size == SumSizes(overhead, s.ring)
    && |s.ring| <= |s.status| && RingOk(s.ring, |s.status| - |s.ring|)
    && (forall k :: 0 <= k < |s.status| ==> (s.status[k] == InRing <==> |s.status| - |s.ring| <= k))
    && (s.lock.Some? ==> s.lock.value < |s.threads|)
    && (forall t :: 0 <= t < |s.threads| ==> ThreadOk(s, t))
    && FreedOk(s.freed, s.status)
  }

  ghost function Next(overhead: nat, s: State, a: Action): State
    requires Inv(overhead, s) && Enabled(s, a) && ChecksHold(s, a)
  {
    var t := a.t;
    var pc := s.threads[t];
    match a
    case Begin(_, block, max) => s.(threads := s.threads[t := Want(block, max)])
    case Enter(_) => EnterStep(overhead, s, t)
    case PopOne(_) => PopStep(overhead, s, t)
    case Leave(_) => s.(lock := None, threads := s.threads[t := Freeing(pc.batch, pc.max, false)])
    case FreeOne(_) => assert ThreadOk(s, t); FreeStep(s, t)
    case Done(_) => s.(threads := s.threads[t := if pc.again then Relock(pc.max) else Idle])
    case Reenter(_) => s.(lock := Some(t), threads := s.threads[t := Loop([], pc.max)])
  }

  // ---------------------------------------------------------------- every step keeps it

  lemma {:induction false} SumPush(overhead: nat, ring: seq<Entry>, e: Entry)
    ensures SumSizes(overhead, ring + [e]) == SumSizes(overhead, ring) + e.size + overhead
  {
    if ring != [] {
      SumPush(overhead, ring[1..], e);
      assert (ring + [e])[1..] == ring[1..] + [e];
    }
  }

  /** None of the routine's checks fails: no push into a full ring, no pop from an empty one, no batch of five. */
  lemma ChecksNeverFail(overhead: nat, s: State, a: Action)
    requires Inv(overhead, s) && Enabled(s, a)
    ensures ChecksHold(s, a)
  {
    assert ThreadOk(s, a.t);
  }

  lemma BatchFrame(batch: seq<Entry>, t: nat, status: seq<Status>, status': seq<Status>)
    requires BatchOk(batch, t, status) && |status| <= |status'|
    requires forall k :: 0 <= k < |status| && status[k] == InBatch(t) ==> status'[k] == status[k]
    ensures BatchOk(batch, t, status')
  {
  }

  lemma EnterKeeps(overhead: nat, s: State, t: nat)
    requires Inv(overhead, s) && Enabled(s, Enter(t))
    ensures Inv(overhead, EnterStep(overhead, s, t))
  {
    var s' := EnterStep(overhead, s, t);
    forall u | 0 <= u < |s'.threads| ensures ThreadOk(s', u) {
      assert ThreadOk(s, u);
      if u != t {
        BatchFrame(BatchOf(s.threads[u]), u, s.status, s'.status);
      }
    }
    if s.threads[t].block.Some? {
      SumPush(overhead, s.ring, Entry(|s.status|, s.threads[t].block.value));
    }
  }

  lemma PopKeeps(overhead: nat, s: State, t: nat)
    requires Inv(overhead, s) && Enabled(s, PopOne(t)) && ChecksHold(s, PopOne(t))
    ensures Inv(overhead, PopStep(overhead, s, t))
  {
    var s' := PopStep(overhead, s, t);
    var e, popped := s.ring[0], |s.status| - |s.ring|;
    assert ThreadOk(s, t) && e.ticket == popped;
    assert BatchOk(s.threads[t].batch + [e], t, s'.status) by {
      var batch := s.threads[t].batch;
      forall i | 0 <= i < |batch| ensures batch[i].ticket < popped {
        assert s.status[batch[i].ticket] != InRing;
      }
    }
    forall u | 0 <= u < |s'.threads| ensures ThreadOk(s', u) {
      assert ThreadOk(s, u);
      if u != t {
        BatchFrame(BatchOf(s.threads[u]), u, s.status, s'.status);
      } else {
        assert BatchOf(s'.threads[t]) == s.threads[t].batch + [e];
      }
    }
    assert RingOk(s'.ring, popped + 1) by {
      forall i | 0 <= i < |s'.ring| ensures s'.ring[i].ticket == popped + 1 + i {
        assert s'.ring[i] == s.ring[i + 1];
      }
    }
  }

  lemma FreeKeeps(overhead: nat, s: State, t: nat)
    requires Inv(overhead, s) && Enabled(s, FreeOne(t))
    requires s.threads[t].batch[0].ticket < |s.status|
    ensures Inv(overhead, FreeStep(s, t))
  {
    var s' := FreeStep(s, t);
    var batch := s.threads[t].batch;
    var k := batch[0].ticket;
    assert ThreadOk(s, t) && s.status[k] == InBatch(t);
    forall u | 0 <= u < |s'.threads| ensures ThreadOk(s', u) {
      assert ThreadOk(s, u);
      if u != t {
        BatchFrame(BatchOf(s.threads[u]), u, s.status, s'.status);
      } else {
        forall i | 0 <= i < |batch[1..]| ensures batch[1..][i].ticket != k {
          assert batch[0].ticket < batch[i + 1].ticket;
        }
      }
    }
  }

  lemma StepKeeps(overhead: nat, s: State, a: Action)
    requires Inv(overhead, s) && Enabled(s, a) && ChecksHold(s, a)
    ensures Inv(overhead, Next(overhead, s, a))
  {
    assert ThreadOk(s, a.t);
    match a
    case Enter(t) => EnterKeeps(overhead, s, t);
    case PopOne(t) => PopKeeps(overhead, s, t);
    case FreeOne(t) => FreeKeeps(overhead, s, t);
    case _ =>
      var s' := Next(overhead, s, a);
      forall u | 0 <= u < |s'.threads| ensures ThreadOk(s', u) {
        assert ThreadOk(s, u);
      }
  }

  // ---------------------------------------------------------------- runs

  predicate Init(s: State) {
    && s.ring == [] && s.size == 0 && s.lock.None? && s.freed == [] && s.status == []
    && forall t :: 0 <= t < |s.threads| ==> s.threads[t].Idle?
  }

  ghost predicate IsStep(overhead: nat, s: State, a: Action, s': State) {
    Inv(overhead, s) ==> Enabled(s, a) && (ChecksHold(s, a) ==> s' == Next(overhead, s, a))
  }

  /** Any interleaving of enabled steps. */
  ghost predicate IsRun(overhead: nat, trace: seq<State>, actions: seq<Action>) {
    && |trace| == |actions| + 1 && Init(trace[0])
    && forall i :: 0 <= i < |actions| ==> IsStep(overhead, trace[i], actions[i], trace[i + 1])
  }

  lemma RunStep(overhead: nat, trace: seq<State>, actions: seq<Action>, n: nat)
    requires IsRun(overhead, trace, actions) && 0 < n < |trace| && Inv(overhead, trace[n - 1])
    ensures Enabled(trace[n - 1], actions[n - 1])
    ensures ChecksHold(trace[n - 1], actions[n - 1]) ==> trace[n] == Next(overhead, trace[n - 1], actions[n - 1])
  {
    hide Inv, Enabled, ChecksHold, Init;
    assert IsStep(overhead, trace[n - 1], actions[n - 1], trace[n - 1 + 1]);
  }

  /**
   * Every state of every run: the checks passed, the ring has room whenever the lock is free, and
   * the recorded size is the sum over the ring.
   */
  lemma {:induction false} EveryRun(overhead: nat, trace: seq<State>, actions: seq<Action>, n: nat)
    requires IsRun(overhead, trace, actions) && n < |trace|
    ensures Inv(overhead, trace[n])
    ensures n < |actions| ==> Enabled(trace[n], actions[n]) && ChecksHold(trace[n], actions[n])
  {
    if n != 0 {
      EveryRun(overhead, trace, actions, n - 1);
      RunStep(overhead, trace, actions, n);
      StepKeeps(overhead, trace[n - 1], actions[n - 1]);
    }
    if n < |actions| {
      RunStep(overhead, trace, actions, n + 1);
      ChecksNeverFail(overhead, trace[n], actions[n]);
    }
  }

  /** The ring is first in, first out: it always holds the latest pushes in order, the earlier ones are out. */
  lemma FirstInFirstOut(overhead: nat, trace: seq<State>, actions: seq<Action>, n: nat, i: nat)
    requires IsRun(overhead, trace, actions) && n < |trace| && i < |trace[n].ring|
    ensures trace[n].ring[i].ticket == |trace[n].status| - |trace[n].ring| + i
  {
    EveryRun(overhead, trace, actions, n);
  }

  /** No block is released twice, none while queued or in a batch, and a batch is in one thread's hands only. */
  lemma ReleasedOnce(overhead: nat, trace: seq<State>, actions: seq<Action>, n: nat, i: nat)
    requires IsRun(overhead, trace, actions) && n < |trace| && i < |trace[n].freed|
    ensures forall j :: 0 <= j < |trace[n].freed| && j != i ==> trace[n].freed[j] != trace[n].freed[i]
    ensures forall j :: 0 <= j < |trace[n].ring| ==> trace[n].ring[j].ticket != trace[n].freed[i]
    ensures forall t, j :: 0 <= t < |trace[n].threads| && 0 <= j < |BatchOf(trace[n].threads[t])| ==>
              BatchOf(trace[n].threads[t])[j].ticket != trace[n].freed[i]
  {
    EveryRun(overhead, trace, actions, n);
    var s := trace[n];
    assert s.status[s.freed[i]] == Freed;
    forall t, j | 0 <= t < |s.threads| && 0 <= j < |BatchOf(s.threads[t])|
      ensures BatchOf(s.threads[t])[j].ticket != s.freed[i]
    {
      assert ThreadOk(s, t);
    }
  }

  // ---------------------------------------------------------------- nothing is dropped

  predicate HasTicket(batch: seq<Entry>, k: nat) {
    exists i :: 0 <= i < |batch| && batch[i].ticket == k
  }

  /** Every pushed block is where its status says. */
  predicate PlacedAt(s: State, k: nat)
    requires k < |s.status|
  {
    match s.status[k]
    case InRing => HasTicket(s.ring, k)
    case InBatch(t) => t < |s.threads| && HasTicket(BatchOf(s.threads[t]), k)
    case Freed => k in s.freed
  }

  ghost predicate Placed(s: State) {
    forall k: nat :: k < |s.status| ==> PlacedAt(s, k)
  }

  lemma RingHas(overhead: nat, s: State, k: nat)
    requires Inv(overhead, s) && k < |s.status| && s.status[k] == InRing
    ensures HasTicket(s.ring, k)
  {
    assert s.ring[k - (|s.status| - |s.ring|)].ticket == k;
  }

  lemma PopPlaces(overhead: nat, s: State, t: nat, k: nat)
    requires Inv(overhead, s) && Enabled(s, PopOne(t)) && ChecksHold(s, PopOne(t)) && Placed(s)
    requires k < |s.status| && PopStep(overhead, s, t).status[k] != InRing
    ensures PlacedAt(PopStep(overhead, s, t), k)
  {
    var s', e, batch := PopStep(overhead, s, t), s.ring[0], s.threads[t].batch;
    assert PlacedAt(s, k) && e.ticket == |s.status| - |s.ring|;
    var next := batch + [e];
    assert BatchOf(s'.threads[t]) == next;
    if k == e.ticket {
      assert next[|batch|].ticket == k;
    } else if s.status[k] == InBatch(t) {
      var i :| 0 <= i < |batch| && batch[i].ticket == k;
      assert next[i].ticket == k;
    }
  }

  lemma FreePlaces(overhead: nat, s: State, t: nat, k: nat)
    requires Inv(overhead, s) && Enabled(s, FreeOne(t)) && Placed(s) && s.threads[t].batch[0].ticket < |s.status|
    requires k < |s.status| && FreeStep(s, t).status[k] != InRing
    ensures PlacedAt(FreeStep(s, t), k)
  {
    var s', batch := FreeStep(s, t), s.threads[t].batch;
    assert PlacedAt(s, k) && ThreadOk(s, t);
    if k != batch[0].ticket && s.status[k] == InBatch(t) {
      var i :| 0 <= i < |batch| && batch[i].ticket == k;
      assert batch[1..][i - 1].ticket == k;
      assert BatchOf(s'.threads[t]) == batch[1..];
    }
  }

  lemma StaysPlaced(overhead: nat, s: State, a: Action)
    requires Inv(overhead, s) && Enabled(s, a) && ChecksHold(s, a) && Placed(s)
    ensures Placed(Next(overhead, s, a))
  {
    var s' := Next(overhead, s, a);
    StepKeeps(overhead, s, a);
    assert ThreadOk(s, a.t);
    forall k: nat | k < |s'.status| ensures PlacedAt(s', k) {
      if s'.status[k] == InRing {
        RingHas(overhead, s', k);
      } else {
        hide Inv, ThreadOk, SumSizes, HasTicket;
        assert k < |s.status| ==> PlacedAt(s, k);
        match a
        case PopOne(t) => PopPlaces(overhead, s, t, k);
        case FreeOne(t) => FreePlaces(overhead, s, t, k);
        case _ =>
      }
    }
  }

  /** How many of the first n steps enter the routine with a block to push. */
  ghost function Pushes(trace: seq<State>, actions: seq<Action>, n: nat): nat
    requires n <= |actions| < |trace|
  {
    if n == 0 then 0 else Pushes(trace, actions, n - 1) + (if PushesAt(trace[n - 1], actions[n - 1]) then 1 else 0)
  }

  predicate PushesAt(s: State, a: Action) {
    a.Enter? && a.t < |s.threads| && s.threads[a.t].Want? && s.threads[a.t].block.Some?
  }

  lemma StatusGrows(overhead: nat, s: State, a: Action)
    requires Inv(overhead, s) && Enabled(s, a) && ChecksHold(s, a)
    ensures |Next(overhead, s, a).status| == |s.status| + (if PushesAt(s, a) then 1 else 0)
  {
    assert ThreadOk(s, a.t);
  }

  /**
   * No block is dropped: in every state of every run there is a ticket for each call that entered
   * with a block, and the block of each ticket is queued, in a batch of some thread, or released.
   */
  lemma {:induction false} NothingDropped(overhead: nat, trace: seq<State>, actions: seq<Action>, n: nat)
    requires IsRun(overhead, trace, actions) && n < |trace|
    ensures Placed(trace[n]) && |trace[n].status| == Pushes(trace, actions, n)
  {
    if n != 0 {
      NothingDropped(overhead, trace, actions, n - 1);
      EveryRun(overhead, trace, actions, n - 1);
      RunStep(overhead, trace, actions, n);
      StaysPlaced(overhead, trace[n - 1], actions[n - 1]);
      StatusGrows(overhead, trace[n - 1], actions[n - 1]);
    }
  }

  /** With no call in progress every block ever pushed is queued or has been released, and each just once. */
  lemma QuietConservation(overhead: nat, trace: seq<State>, actions: seq<Action>, n: nat)
    requires IsRun(overhead, trace, actions) && n < |trace|
    requires forall t :: 0 <= t < |trace[n].threads| ==> trace[n].threads[t].Idle?
    ensures |trace[n].ring| + |trace[n].freed| == Pushes(trace, actions, n)
  {
    NothingDropped(overhead, trace, actions, n);
    EveryRun(overhead, trace, actions, n);
    var s := trace[n];
    var out := |s.status| - |s.ring|;
    forall k: nat | k < out ensures k in s.freed {
      assert PlacedAt(s, k);
    }
    forall i | 0 <= i < |s.freed| ensures s.freed[i] < out {
      assert s.status[s.freed[i]] == Freed;
    }
    AllBelow(s.freed, out);
  }

  /** A list without repetition of exactly the numbers below n has n elements. */
  lemma AllBelow(list: seq<nat>, n: nat)
    requires forall i, j :: 0 <= i < j < |list| ==> list[i] != list[j]
    requires (forall k: nat :: k < n ==> k in list) && forall i :: 0 <= i < |list| ==> list[i] < n
    ensures |list| == n
  {
    Distinct(list);
    BelowIs(n);
    assert Elements(list) == Below(n);
  }

  function Elements(list: seq<nat>): set<nat> {
    set x | x in list
  }

  function Below(n: nat): set<nat> {
    if n == 0 then {} else Below(n - 1) + {n - 1}
  }

  lemma {:induction false} BelowIs(n: nat)
    ensures |Below(n)| == n && forall k: nat :: k in Below(n) <==> k < n
  {
    if n != 0 {
      BelowIs(n - 1);
    }
  }

  lemma {:induction false} Distinct(list: seq<nat>)
    requires forall i, j :: 0 <= i < j < |list| ==> list[i] != list[j]
    ensures |Elements(list)| == |list|
    decreases |list|
  {
    if list != [] {
      Distinct(list[1..]);
      assert Elements(list) == {list[0]} + Elements(list[1..]);
      assert list[0] !in list[1..];
    }
  }

  ghost predicate CanMove(s: State, t: nat) {
    exists a: Action :: a.t == t && Enabled(s, a)
  }

  lemma InCallMoves(overhead: nat, s: State, t: nat)
    requires Inv(overhead, s) && t < |s.threads| && !s.threads[t].Idle?
    ensures CanMove(s, t) || (s.lock.Some? && (s.threads[t].Want? || s.threads[t].Relock?))
    ensures s.threads[t].Loop? ==> CanMove(s, t)
  {
    match s.threads[t]
    case Want(_, _) => assert Enter(t).t == t && (s.lock.None? ==> Enabled(s, Enter(t)));
    case Loop(_, max) =>
      assert PopOne(t).t == t && Leave(t).t == t;
      assert Enabled(s, PopOne(t)) || Enabled(s, Leave(t));
    case Freeing(batch, _, _) =>
      assert FreeOne(t).t == t && Done(t).t == t;
      assert Enabled(s, FreeOne(t)) || Enabled(s, Done(t));
    case Relock(_) => assert Reenter(t).t == t && (s.lock.None? ==> Enabled(s, Reenter(t)));
  }

  /** A thread in the middle of a call can take a step, or waits for the lock, and the thread that has it can take a step. */
  lemma NoDeadlock(overhead: nat, trace: seq<State>, actions: seq<Action>, n: nat, t: nat)
    requires IsRun(overhead, trace, actions) && n < |trace| && t < |trace[n].threads| && !trace[n].threads[t].Idle?
    ensures CanMove(trace[n], t) ||
            (trace[n].lock.Some? && trace[n].lock.value < |trace[n].threads| && CanMove(trace[n], trace[n].lock.value))
  {
    EveryRun(overhead, trace, actions, n);
    var s := trace[n];
    InCallMoves(overhead, s, t);
    if s.lock.Some? {
      assert ThreadOk(s, s.lock.value);
      InCallMoves(overhead, s, s.lock.value);
    }
  }

  /** A thread drops the lock only with a full batch, which it will come back from, or when it is no longer over. */
  lemma DropsLockWhen(overhead: nat, s: State, a: Action)
    requires Inv(overhead, s) && Enabled(s, a) && ChecksHold(s, a) && s.threads[a.t].Loop?
    ensures var s' := Next(overhead, s, a);
            && a.t < |s'.threads|
            && (s'.lock.None? <==> s'.threads[a.t].Freeing?)
            && (s'.threads[a.t].Freeing? ==>
                  (if s'.threads[a.t].again then |s'.threads[a.t].batch| == BATCH else !Over(s, s.threads[a.t].max)))
  {
    assert ThreadOk(s, a.t);
    assert a.PopOne? || a.Leave?;
  }

  /** No block leaves the queue early: only while more bytes are queued than the limit of the call allows, or 1023 blocks are. */
  lemma NeverEarly(overhead: nat, trace: seq<State>, actions: seq<Action>, i: nat)
    requires IsRun(overhead, trace, actions) && i < |actions|
    requires |trace[i + 1].ring| < |trace[i].ring|
    ensures actions[i].PopOne? && actions[i].t < |trace[i].threads| && trace[i].threads[actions[i].t].Loop?
    ensures SumSizes(overhead, trace[i].ring) > Limit(trace[i].threads[actions[i].t].max) || |trace[i].ring| == 1023
  {
    EveryRun(overhead, trace, actions, i);
    RunStep(overhead, trace, actions, i + 1);
  }

  // ---------------------------------------------------------------- how much stays queued

  /** A thread that dropped the lock on a full batch and will come back to the loop. */
  predicate ComesBack(pc: Pc) {
    pc.Relock? || (pc.Freeing? && pc.again)
  }

  predicate Within(pc: Pc, m: nat) {
    pc.Idle? || Limit(pc.max) <= m
  }

  /** Every call in progress has a limit of at most m; with the lock free, so has the ring, or a thread comes back for it. */
  ghost predicate Bounded(m: nat, s: State) {
    && (forall t :: 0 <= t < |s.threads| ==> Within(s.threads[t], m))
    && (s.lock.None? ==> s.size <= m || exists t :: 0 <= t < |s.threads| && ComesBack(s.threads[t]))
  }

  lemma StaysBounded(overhead: nat, m: nat, s: State, a: Action)
    requires Inv(overhead, s) && Enabled(s, a) && ChecksHold(s, a) && Bounded(m, s)
    requires a.Begin? ==> Limit(a.max) <= m
    ensures Bounded(m, Next(overhead, s, a))
  {
    assert ThreadOk(s, a.t);
    hide Inv, SumSizes, IsFull, Limit;
    var s' := Next(overhead, s, a);
    assert Within(s.threads[a.t], m);
    if s.lock.None? && s.size > m {
      var t :| 0 <= t < |s.threads| && ComesBack(s.threads[t]);
      assert s'.lock.None? ==> ComesBack(s'.threads[t]);
    } else if a.PopOne? {
      assert s'.lock.None? ==> ComesBack(s'.threads[a.t]);
    }
  }

  lemma {:induction false} RunBounded(overhead: nat, trace: seq<State>, actions: seq<Action>, n: nat, m: nat)
    requires IsRun(overhead, trace, actions) && n < |trace|
    requires forall i :: 0 <= i < n && actions[i].Begin? ==> Limit(actions[i].max) <= m
    ensures Bounded(m, trace[n])
  {
    if n != 0 {
      RunBounded(overhead, trace, actions, n - 1, m);
      EveryRun(overhead, trace, actions, n - 1);
      RunStep(overhead, trace, actions, n);
      StaysBounded(overhead, m, trace[n - 1], actions[n - 1]);
    }
  }

  /**
   * In any state of any run with the lock free, the queued bytes are within the largest limit any
   * call has passed so far, unless some thread released a full batch and has yet to look again.
   */
  lemma QuietRunWithinLimit(overhead: nat, trace: seq<State>, actions: seq<Action>, n: nat, m: nat)
    requires IsRun(overhead, trace, actions) && n < |trace| && trace[n].lock.None?
    requires forall i :: 0 <= i < n && actions[i].Begin? ==> Limit(actions[i].max) <= m
    requires forall t :: 0 <= t < |trace[n].threads| ==> !ComesBack(trace[n].threads[t])
    ensures SumSizes(overhead, trace[n].ring) <= m && !IsFull(trace[n].ring)
  {
    RunBounded(overhead, trace, actions, n, m);
    EveryRun(overhead, trace, actions, n);
  }
}
