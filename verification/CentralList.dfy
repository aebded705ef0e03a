/**
 * One size class of the central free list: spans cut into objects, the lists of spans with and
 * without free objects, and the operations that move objects between spans and batches.
 */
module CentralList {
  import opened Collections
  import Partition

  /** An object, named by its span and its position in the span. */
  datatype Obj = Obj(span: nat, index: nat)

  /** The free objects of a span, first to be handed out first, and the number handed out. */
  datatype Span = Span(objects: seq<Obj>, refcount: int)

  datatype Central = Central(
    maxCache: int, cache: int, slots: seq<seq<Obj>>,
    spans: map<nat, Span>, nonempty: seq<nat>, empty: seq<nat>, numSpans: int, counter: int)

  // ---------------------------------------------------------------- what holds of a class

  /** Free and handed-out objects make up the whole span. */
  predicate SpanOk(id: nat, sp: Span, per: nat) {
    && NoDup(sp.objects)
    && (forall o :: o in sp.objects ==> o.span == id && o.index < per)
    && sp.refcount + |sp.objects| == per
  }

  predicate AllIn(ids: seq<nat>, spans: map<nat, Span>) {
    forall i :: 0 <= i < |ids| ==> ids[i] in spans
  }

  function SumFree(spans: map<nat, Span>, ids: seq<nat>): nat
    requires AllIn(ids, spans)
  {
    if ids == [] then 0 else |spans[ids[0]].objects| + SumFree(spans, ids[1..])
  }

  /** The two span lists hold exactly the spans with and without free objects, once each. */
  ghost predicate ListsOk(l: Central) {
    && NoDup(l.nonempty) && NoDup(l.empty)
    && (forall id :: id in l.nonempty <==> id in l.spans && l.spans[id].objects != [])
    && (forall id :: id in l.empty <==> id in l.spans && l.spans[id].objects == [])
  }

  ghost predicate CentralOk(l: Central, per: nat) {
    && ListsOk(l) && AllIn(l.nonempty, l.spans)
    && (forall id :: id in l.spans ==> SpanOk(id, l.spans[id], per))
    && l.numSpans == |l.nonempty| + |l.empty|
    && l.counter == SumFree(l.spans, l.nonempty)
  }

  /** Every listed span has an object handed out, except possibly one. */
  predicate InUse(l: Central, except: set<nat>) {
    forall id :: id in l.spans && id !in except ==> 0 < l.spans[id].refcount
  }

  predicate IsFree(l: Central, o: Obj) {
    o.span in l.spans && o in l.spans[o.span].objects
  }

  // ---------------------------------------------------------------- list and sum lemmas

  lemma {:induction false} SumWithout(spans: map<nat, Span>, ids: seq<nat>, id: nat)
    requires AllIn(ids, spans) && id in ids && AllIn(Without(ids, id), spans)
    ensures SumFree(spans, Without(ids, id)) == SumFree(spans, ids) - |spans[id].objects|
  {
    if ids[0] != id {
      var w := Without(ids[1..], id);
      assert Without(ids, id)[1..] == w;
      forall i | 0 <= i < |w| ensures w[i] in spans {
        assert w[i] == Without(ids, id)[i + 1];
      }
      SumWithout(spans, ids[1..], id);
    }
  }

  /** Replacing a span changes the sum by the change of its own length. */
  lemma {:induction false} SumUpdate(spans: map<nat, Span>, ids: seq<nat>, id: nat, sp: Span)
    requires AllIn(ids, spans) && NoDup(ids) && id in spans
    ensures AllIn(ids, spans[id := sp])
    ensures SumFree(spans[id := sp], ids) ==
              SumFree(spans, ids) + if id in ids then |sp.objects| - |spans[id].objects| else 0
  {
    if ids != [] {
      assert ids == [ids[0]] + ids[1..];
      SumUpdate(spans, ids[1..], id, sp);
    }
  }

  lemma {:induction false} SumFrame(spans: map<nat, Span>, other: map<nat, Span>, ids: seq<nat>)
    requires AllIn(ids, spans) && AllIn(ids, other)
    requires forall i :: 0 <= i < |ids| ==> spans[ids[i]] == other[ids[i]]
    ensures SumFree(spans, ids) == SumFree(other, ids)
  {
    if ids != [] {
      SumFrame(spans, other, ids[1..]);
    }
  }

  // ---------------------------------------------------------------- counting objects of a span

  function Objects(id: nat, per: nat): seq<Obj> {
    seq(per, i requires 0 <= i => Obj(id, i))
  }

  ghost function ObjectSet(id: nat, per: nat): (s: set<Obj>)
    ensures |s| == per && forall o :: o in s <==> o.span == id && o.index < per
  {
    if per == 0 then {} else ObjectSet(id, per - 1) + {Obj(id, per - 1)}
  }

  lemma {:induction false} NoDupCard<T>(s: seq<T>)
    requires NoDup(s)
    ensures |(set x | x in s)| == |s|
  {
    if s != [] {
      NoDupCard(s[1..]);
      assert s == [s[0]] + s[1..];
      assert (set x | x in s) == {s[0]} + set x | x in s[1..];
    }
  }

  lemma SubsetCard<T>(a: set<T>, b: set<T>)
    requires a <= b
    ensures |a| <= |b| && (|a| == |b| ==> a == b)
  {
    assert b == a + (b - a);
  }

  /** A span with an object out is not all free; with exactly one out, all the others are free. */
  lemma OneOut(id: nat, sp: Span, per: nat, o: Obj)
    requires SpanOk(id, sp, per) && o.span == id && o.index < per && o !in sp.objects
    ensures 0 < sp.refcount
    ensures sp.refcount == 1 ==> forall x: Obj :: x.span == id && x.index < per && x != o ==> x in sp.objects
  {
    var free := set x | x in sp.objects;
    NoDupCard(sp.objects);
    var others := ObjectSet(id, per) - {o};
    assert |others| == per - 1;
    SubsetCard(free, others);
    if sp.refcount == 1 {
      forall x: Obj | x.span == id && x.index < per && x != o ensures x in sp.objects {
        assert x in others;
      }
    }
  }

  // ---------------------------------------------------------------- FetchFromOneSpans

  /** Takes at most n objects from the first span that has any. */
  function FetchOne(l: Central, n: nat): (Central, seq<Obj>)
    requires AllIn(l.nonempty, l.spans)
  {
    if l.nonempty == [] then (l, []) else
      var id := l.nonempty[0];
      var sp := l.spans[id];
      var k := if n <= |sp.objects| then n else |sp.objects|;
      var rest := sp.objects[k..];
      (l.(spans := l.spans[id := Span(rest, sp.refcount + k)],
          counter := l.counter - k,
          nonempty := if rest == [] then l.nonempty[1..] else l.nonempty,
          empty := if rest == [] then [id] + l.empty else l.empty),
       sp.objects[..k])
  }

  /** Exactly the fetched objects stop being free. */
  ghost predicate Fetches(l: Central, l': Central, got: seq<Obj>) {
    && NoDup(got)
    && l'.spans.Keys == l.spans.Keys && l'.slots == l.slots && l'.cache == l.cache && l'.maxCache == l.maxCache
    && (forall o :: o in got ==> IsFree(l, o))
    && (forall o: Obj :: IsFree(l', o) <==> IsFree(l, o) && o !in got)
    && (forall id :: id in l.spans ==> l.spans[id].refcount <= l'.spans[id].refcount)
  }

  lemma FetchOneOk(l: Central, n: nat, per: nat)
    requires CentralOk(l, per) && 0 < n && l.nonempty != []
    ensures var (l', got) := FetchOne(l, n);
            CentralOk(l', per) && Fetches(l, l', got) && 0 < |got| <= n
    ensures var (l', got) := FetchOne(l, n);
            && 0 < l'.spans[l.nonempty[0]].refcount
            && (|got| == n || l'.nonempty == l.nonempty[1..])
  {
    FirstHas(l, per);
    FetchKeepsOk(l, n, per);
    FetchFree(l, n, per);
    hide CentralOk, NoDup, IsFree, SpanOk;
  }

  lemma FetchKeepsOk(l: Central, n: nat, per: nat)
    requires CentralOk(l, per) && 0 < n && l.nonempty != []
    ensures CentralOk(FetchOne(l, n).0, per)
  {
    hide ListsOk, NoDup, SumFree;
    var (l', got) := FetchOne(l, n);
    var id := l.nonempty[0];
    SplitOk(id, l.spans[id], per, |got|);
    FetchSums(l, n, per);
    FetchLists(l, n, per);
  }

  lemma FirstHas(l: Central, per: nat)
    requires CentralOk(l, per) && l.nonempty != []
    ensures AllIn(l.nonempty, l.spans)
    ensures var id := l.nonempty[0];
            id in l.spans && l.spans[id].objects != [] && SpanOk(id, l.spans[id], per)
            && 0 <= l.spans[id].refcount
  {
    var id := l.nonempty[0];
    assert SpanOk(id, l.spans[id], per);
    SpanFits(id, l.spans[id], per);
  }

  lemma SpanFits(id: nat, sp: Span, per: nat)
    requires SpanOk(id, sp, per)
    ensures |sp.objects| <= per
  {
    NoDupCard(sp.objects);
    var free := set x | x in sp.objects;
    SubsetCard(free, ObjectSet(id, per));
  }

  lemma FetchFree(l: Central, n: nat, per: nat)
    requires CentralOk(l, per) && 0 < n && l.nonempty != []
    ensures var (l', got) := FetchOne(l, n);
            && NoDup(got) && (forall o :: o in got ==> IsFree(l, o))
            && forall o: Obj :: IsFree(l', o) <==> IsFree(l, o) && o !in got
  {
    var (l', got) := FetchOne(l, n);
    var id := l.nonempty[0];
    var objects := l.spans[id].objects;
    assert SpanOk(id, l.spans[id], per);
    hide ListsOk, SumFree;
    forall o: Obj ensures IsFree(l', o) <==> IsFree(l, o) && o !in got {
      SplitMember(objects, |got|, o);
    }
    forall o | o in got ensures IsFree(l, o) {
      assert o in objects;
    }
  }

  lemma SplitMember(s: seq<Obj>, k: nat, o: Obj)
    requires k <= |s| && NoDup(s)
    ensures o in s[k..] <==> o in s && o !in s[..k]
  {
    assert s == s[..k] + s[k..];
  }

  /** Handing out the first objects of a span keeps it whole. */
  lemma SplitOk(id: nat, sp: Span, per: nat, k: nat)
    requires SpanOk(id, sp, per) && k <= |sp.objects|
    ensures SpanOk(id, Span(sp.objects[k..], sp.refcount + k), per) && NoDup(sp.objects[..k])
  {
  }

  lemma FetchSums(l: Central, n: nat, per: nat)
    requires CentralOk(l, per) && 0 < n && l.nonempty != []
    ensures var l' := FetchOne(l, n).0;
            AllIn(l'.nonempty, l'.spans) && l'.counter == SumFree(l'.spans, l'.nonempty)
  {
    var (l', got) := FetchOne(l, n);
    var id := l.nonempty[0];
    SumUpdate(l.spans, l.nonempty, id, l'.spans[id]);
  }

  lemma FetchLists(l: Central, n: nat, per: nat)
    requires CentralOk(l, per) && 0 < n && l.nonempty != []
    ensures ListsOk(FetchOne(l, n).0)
  {
    var l' := FetchOne(l, n).0;
    var id := l.nonempty[0];
    HeadOnce(l.nonempty);
    assert l.nonempty == [id] + l.nonempty[1..];
    assert id !in l.empty;
    PrependOnce(id, l.empty);
  }

  lemma FetchesBoth(l: Central, l1: Central, l2: Central, a: seq<Obj>, b: seq<Obj>)
    requires Fetches(l, l1, a) && Fetches(l1, l2, b)
    ensures Fetches(l, l2, b + a)
  {
    hide IsFree;
    var both := b + a;
    forall i, j | 0 <= i < j < |both| ensures both[i] != both[j] {
      if i < |b| <= j {
        assert both[i] in b && both[j] in a;
        assert IsFree(l1, both[i]) && !IsFree(l1, both[j]);
      }
    }
    forall o | o in both ensures IsFree(l, o) {
      assert o in a || o in b;
    }
  }

  /** RemoveRange under the lock: span after span is drawn on until n objects are there or none is left. */
  function FetchAll(l: Central, n: nat, per: nat): (Central, seq<Obj>)
    requires CentralOk(l, per)
    decreases n
  {
    if n == 0 || l.nonempty == [] then (l, []) else
      FetchOneOk(l, n, per);
      var (l1, a) := FetchOne(l, n);
      var (l2, b) := FetchAll(l1, n - |a|, per);
      (l2, b + a)
  }

  /** What a fetch of n objects leaves behind and returns. */
  ghost predicate FetchResult(l: Central, n: nat, per: nat, l': Central, got: seq<Obj>) {
    && CentralOk(l', per) && Fetches(l, l', got) && InUse(l', {})
    && |got| <= n && (|got| < n ==> l'.nonempty == []) && (got == [] <==> n == 0 || l.nonempty == [])
  }

  /** The first span drawn on, and how the rest goes on from there. */
  lemma FetchFirst(l: Central, n: nat, per: nat, except: set<nat>) returns (l1: Central, a: seq<Obj>)
    requires CentralOk(l, per) && InUse(l, except) && 0 < n && l.nonempty != []
    requires except == {} || except == {l.nonempty[0]}
    ensures CentralOk(l1, per) && InUse(l1, {}) && Fetches(l, l1, a) && 0 < |a| <= n
    ensures FetchAll(l, n, per) == (FetchAll(l1, n - |a|, per).0, FetchAll(l1, n - |a|, per).1 + a)
  {
    FirstHas(l, per);
    hide CentralOk, ListsOk, SpanOk, SumFree, Fetches, FetchOne, FetchAll, InUse, AllIn, NoDup, IsFree;
    FetchOneOk(l, n, per);
    FetchOneInUse(l, n, per, except);
    FetchAllStep(l, n, per);
    var one := FetchOne(l, n);
    l1, a := one.0, one.1;
  }

  lemma FetchAllStep(l: Central, n: nat, per: nat)
    requires CentralOk(l, per) && 0 < n && l.nonempty != []
    ensures var (l1, a) := FetchOne(l, n);
            CentralOk(l1, per) && |a| <= n && FetchAll(l, n, per) == (FetchAll(l1, n - |a|, per).0, FetchAll(l1, n - |a|, per).1 + a)
  {
    FirstHas(l, per);
    hide CentralOk, ListsOk, SpanOk, SumFree, Fetches, FetchOne, InUse, AllIn, NoDup, IsFree;
    FetchOneOk(l, n, per);
  }

  lemma FetchNothing(l: Central, n: nat, per: nat)
    requires CentralOk(l, per) && InUse(l, {}) && (n == 0 || l.nonempty == [])
    ensures FetchResult(l, n, per, FetchAll(l, n, per).0, FetchAll(l, n, per).1)
  {
    FetchesNone(l);
    hide CentralOk, Fetches, InUse;
  }

  /** The class stays consistent, exactly the objects returned leave it, and it runs short only when nothing is free. */
  lemma {:induction false} FetchAllOk(l: Central, n: nat, per: nat, except: set<nat>)
    requires CentralOk(l, per) && InUse(l, except)
    requires except == {} || (0 < n && l.nonempty != [] && except == {l.nonempty[0]})
    ensures FetchResult(l, n, per, FetchAll(l, n, per).0, FetchAll(l, n, per).1)
    decreases n
  {
    hide *;
    if n == 0 || l.nonempty == [] {
      FetchNothing(l, n, per);
    } else {
      var l1, a := FetchFirst(l, n, per, except);
      FetchAllOk(l1, n - |a|, per, {});
      FetchResultBoth(l, n, per, l1, a, FetchAll(l1, n - |a|, per).0, FetchAll(l1, n - |a|, per).1);
    }
  }

  lemma FetchResultBoth(l: Central, n: nat, per: nat, l1: Central, a: seq<Obj>, l2: Central, b: seq<Obj>)
    requires Fetches(l, l1, a) && 0 < |a| <= n && l.nonempty != [] && FetchResult(l1, n - |a|, per, l2, b)
    ensures FetchResult(l, n, per, l2, b + a)
  {
    hide CentralOk, Fetches, InUse;
    FetchesBoth(l, l1, l2, a, b);
  }

  lemma FetchOneInUse(l: Central, n: nat, per: nat, except: set<nat>)
    requires CentralOk(l, per) && InUse(l, except) && 0 < n && l.nonempty != []
    requires except == {} || except == {l.nonempty[0]}
    ensures InUse(FetchOne(l, n).0, {})
  {
    FetchOneOk(l, n, per);
    hide CentralOk, IsFree, NoDup;
  }

  lemma FetchOneNone(l: Central, n: nat)
    requires l.nonempty == []
    ensures FetchOne(l, n) == (l, [])
  {
  }

  lemma FetchAllNone(l: Central, n: nat, per: nat)
    requires CentralOk(l, per) && (n == 0 || l.nonempty == [])
    ensures FetchAll(l, n, per) == (l, [])
  {
  }

  lemma FetchesNone(l: Central)
    ensures Fetches(l, l, [])
  {
  }

  // ---------------------------------------------------------------- ReleaseToSpans

  /** Gives one object back to its span; the span leaves the class when nothing of it is out. */
  function ReleaseOne(l: Central, o: Obj, per: nat): Central
    requires o.span in l.spans
  {
    var id, sp := o.span, l.spans[o.span];
    var l1 := if sp.objects == [] then l.(empty := Without(l.empty, id), nonempty := [id] + l.nonempty) else l;
    if sp.refcount - 1 == 0 then
      l1.(counter := l.counter + 1 - per, nonempty := Without(l1.nonempty, id), numSpans := l.numSpans - 1,
          spans := l.spans - {id})
    else
      l1.(counter := l.counter + 1, spans := l.spans[id := Span([o] + sp.objects, sp.refcount - 1)])
  }

  /** The span of the released object was dropped: all its objects were free but this one. */
  predicate Drops(l: Central, o: Obj)
    requires o.span in l.spans
  {
    l.spans[o.span].refcount == 1
  }

  lemma ReleaseKept(l: Central, o: Obj, per: nat)
    requires CentralOk(l, per) && o.span in l.spans && o.index < per && !IsFree(l, o) && !Drops(l, o)
    ensures CentralOk(ReleaseOne(l, o, per), per)
  {
    var id, sp := o.span, l.spans[o.span];
    var l' := ReleaseOne(l, o, per);
    assert SpanOk(id, sp, per);
    OneOut(id, sp, per, o);
    PrependOnce(o, sp.objects);
    assert SpanOk(id, l'.spans[id], per);
    ReleaseKeptLists(l, o, per);
    ReleaseKeptSum(l, o, per);
    hide ListsOk, SumFree, SpanOk;
    forall x | x in l'.spans ensures SpanOk(x, l'.spans[x], per) {
    }
  }

  lemma ReleaseKeptLists(l: Central, o: Obj, per: nat)
    requires CentralOk(l, per) && o.span in l.spans && l.spans[o.span].refcount != 1
    ensures var l' := ReleaseOne(l, o, per);
            ListsOk(l') && l'.numSpans == |l'.nonempty| + |l'.empty|
  {
    var id, sp := o.span, l.spans[o.span];
    WithoutHas(l.empty, id);
    if sp.objects == [] {
      PrependOnce(id, l.nonempty);
    }
  }

  lemma ReleaseKeptSum(l: Central, o: Obj, per: nat)
    requires CentralOk(l, per) && o.span in l.spans && l.spans[o.span].refcount != 1
    ensures var l' := ReleaseOne(l, o, per);
            AllIn(l'.nonempty, l'.spans) && l'.counter == SumFree(l'.spans, l'.nonempty)
  {
    var id, sp := o.span, l.spans[o.span];
    var l' := ReleaseOne(l, o, per);
    SumUpdate(l.spans, l.nonempty, id, l'.spans[id]);
    if sp.objects == [] {
      assert l'.nonempty[1..] == l.nonempty;
    }
  }

  lemma ReleaseDropped(l: Central, o: Obj, per: nat)
    requires CentralOk(l, per) && o.span in l.spans && o.index < per && !IsFree(l, o) && Drops(l, o)
    ensures CentralOk(ReleaseOne(l, o, per), per)
    ensures forall x: Obj :: x.span == o.span && x.index < per && x != o ==> IsFree(l, x)
  {
    var id, sp := o.span, l.spans[o.span];
    var l' := ReleaseOne(l, o, per);
    assert SpanOk(id, sp, per);
    OneOut(id, sp, per, o);
    ReleaseDroppedLists(l, o, per);
    ReleaseDroppedSum(l, o, per);
    hide ListsOk, SumFree, SpanOk;
  }

  lemma ReleaseDroppedLists(l: Central, o: Obj, per: nat)
    requires CentralOk(l, per) && o.span in l.spans && Drops(l, o)
    ensures var l' := ReleaseOne(l, o, per);
            ListsOk(l') && AllIn(l'.nonempty, l'.spans) && l'.numSpans == |l'.nonempty| + |l'.empty|
  {
    var id, sp := o.span, l.spans[o.span];
    WithoutHas(l.empty, id);
    if sp.objects == [] {
      PrependOnce(id, l.nonempty);
      WithoutHas([id] + l.nonempty, id);
    } else {
      WithoutHas(l.nonempty, id);
    }
  }

  lemma ReleaseDroppedSum(l: Central, o: Obj, per: nat)
    requires CentralOk(l, per) && o.span in l.spans && Drops(l, o)
    requires AllIn(ReleaseOne(l, o, per).nonempty, ReleaseOne(l, o, per).spans)
    ensures var l' := ReleaseOne(l, o, per); l'.counter == SumFree(l'.spans, l'.nonempty)
  {
    var id, sp := o.span, l.spans[o.span];
    var l' := ReleaseOne(l, o, per);
    assert SpanOk(id, sp, per);
    if sp.objects == [] {
      assert ([id] + l.nonempty)[1..] == l.nonempty;
    } else {
      SumWithout(l.spans, l.nonempty, id);
    }
    SumFrame(l.spans, l'.spans, l'.nonempty);
  }

  /** A release changes nothing but where this object, or its whole span, is. */
  lemma ReleaseEffect(l: Central, o: Obj, per: nat)
    requires CentralOk(l, per) && InUse(l, {}) && o.span in l.spans && o.index < per && !IsFree(l, o)
    ensures var l' := ReleaseOne(l, o, per);
            && CentralOk(l', per) && InUse(l', {})
            && l'.slots == l.slots && l'.cache == l.cache && l'.maxCache == l.maxCache
            && l'.spans.Keys == (if Drops(l, o) then l.spans.Keys - {o.span} else l.spans.Keys)
    ensures Drops(l, o) ==> forall x: Obj :: x.span == o.span && x.index < per && x != o ==> IsFree(l, x)
    ensures var l' := ReleaseOne(l, o, per);
            forall x: Obj :: IsFree(l', x) <==> if Drops(l, o) then IsFree(l, x) && x.span != o.span else IsFree(l, x) || x == o
  {
    if Drops(l, o) {
      ReleaseDropped(l, o, per);
    } else {
      ReleaseKept(l, o, per);
    }
    hide CentralOk;
  }

  // ---------------------------------------------------------------- Populate

  /** Adds a span cut into objects, all free. */
  function AddSpan(l: Central, id: nat, per: nat): Central {
    l.(spans := l.spans[id := Span(Objects(id, per), 0)], nonempty := [id] + l.nonempty,
       numSpans := l.numSpans + 1, counter := l.counter + per)
  }

  lemma AddSpanOk(l: Central, id: nat, per: nat)
    requires CentralOk(l, per) && id !in l.spans && 0 < per
    ensures CentralOk(AddSpan(l, id, per), per)
  {
    var l' := AddSpan(l, id, per);
    assert SpanOk(id, l'.spans[id], per);
    PrependOnce(id, l.nonempty);
    SumFrame(l.spans, l'.spans, l.nonempty);
    assert l'.nonempty[1..] == l.nonempty;
  }

  lemma AddSpanEffect(l: Central, id: nat, per: nat)
    requires CentralOk(l, per) && InUse(l, {}) && id !in l.spans && 0 < per
    ensures var l' := AddSpan(l, id, per);
            && CentralOk(l', per) && InUse(l', {id})
            && forall x: Obj :: IsFree(l', x) <==> IsFree(l, x) || (x.span == id && x.index < per)
  {
    AddSpanOk(l, id, per);
    hide CentralOk;
    forall x: Obj ensures x in Objects(id, per) <==> x.span == id && x.index < per {
      if x.span == id && x.index < per {
        assert Objects(id, per)[x.index] == x;
      }
    }
  }

  // ---------------------------------------------------------------- the operations, step by step

  /** Distinct pieces do not overlap. */
  lemma PiecesApart(ptr: nat, size: nat, i: nat, j: nat)
    requires i < j
    ensures ptr + i * size + size <= ptr + j * size
  {
    Partition.MulLe(i + 1, j, size);
  }

  /** The loop of Populate: cuts [ptr, limit) into pieces of the given size. */
  method Cut(ptr: nat, limit: nat, size: nat) returns (pieces: seq<nat>)
    requires 0 < size && ptr <= limit
    ensures |pieces| == (limit - ptr) / size
    ensures forall i :: 0 <= i < |pieces| ==> pieces[i] == ptr + i * size && pieces[i] + size <= limit
    ensures forall i, j :: 0 <= i < j < |pieces| ==> pieces[i] + size <= pieces[j]
  {
    pieces := [];
    var at := ptr;
    while at + size <= limit
      invariant at == ptr + |pieces| * size && at <= limit
      invariant forall i :: 0 <= i < |pieces| ==> pieces[i] == ptr + i * size && pieces[i] + size <= limit
    {
      pieces := pieces + [at];
      at := at + size;
    }
    Partition.DivIs(limit - ptr, size, |pieces|);
    forall i, j | 0 <= i < j < |pieces| ensures pieces[i] + size <= pieces[j] {
      PiecesApart(ptr, size, i, j);
    }
  }

  class CentralFreeList {
    const per: nat
    const move: nat
    var slots: seq<seq<Obj>>
    var cache: int
    const maxCache: int
    var spans: map<nat, Span>
    var nonempty: seq<nat>
    var empty: seq<nat>
    var numSpans: int
    var counter: int

    constructor (per: nat, move: nat, maxCache: int)
      requires 0 < maxCache
      ensures this.per == per && this.move == move
      ensures CentralOk(View(), per) && InUse(View(), {}) && |slots| <= cache <= this.maxCache == maxCache
    {
      this.per, this.move, this.maxCache := per, move, maxCache;
      slots, cache := [], if 16 <= maxCache then 16 else maxCache;
      spans, nonempty, empty, numSpans, counter := map[], [], [], 0, 0;
    }

    ghost function View(): Central
      reads this
    {
      Central(maxCache, cache, slots, spans, nonempty, empty, numSpans, counter)
    }

    /** FetchFromOneSpans: walks the free list of the first span that has one. */
    method FetchFromOneSpans(n: nat) returns (got: seq<Obj>)
      requires 0 < n && AllIn(nonempty, spans) && (nonempty != [] ==> spans[nonempty[0]].objects != [])
      modifies this
      ensures (View(), got) == old(FetchOne(View(), n))
    {
      got := [];
      if nonempty != [] {
        var id := nonempty[0];
        var sp := spans[id];
        var result := Walk(|sp.objects|, n);
        if result == |sp.objects| {
          nonempty := nonempty[1..];
          empty := [id] + empty;
        }
        got := sp.objects[..result];
        spans := spans[id := Span(sp.objects[result..], sp.refcount + result)];
        counter := counter - result;
      }
    }

    /** The walk down the free list stops after n objects or at its end. */
    static method Walk(length: nat, n: nat) returns (result: nat)
      requires 0 < n && 0 < length
      ensures result == if n <= length then n else length
    {
      result := 1;
      while result < n && result < length
        invariant 1 <= result <= n && result <= length
        decreases n - result
      {
        result := result + 1;
      }
    }

    /** RemoveRange with the lock held throughout: no full batch is cached, or fewer than a batch is asked for. */
    method FetchRange(n: nat) returns (got: seq<Obj>)
      requires CentralOk(View(), per) && 0 < n
      modifies this
      ensures (View(), got) == old(FetchAll(View(), n, per))
    {
      hide CentralOk, FetchOne, Fetches, ListsOk, SpanOk, SumFree;
      got := [];
      ghost var whole := FetchAll(View(), n, per);
      assert whole.1 + [] == whole.1;
      var more := true;
      while |got| < n && more
        invariant CentralOk(View(), per) && |got| <= n
        invariant !more ==> nonempty == []
        invariant whole == (FetchAll(View(), n - |got|, per).0, FetchAll(View(), n - |got|, per).1 + got)
        decreases more, n - |got|
      {
        ghost var l := View();
        if nonempty != [] {
          FetchOneOk(l, n - |got|, per);
          FetchAllStep(l, n - |got|, per);
          FirstHas(l, per);
        } else {
          FetchOneNone(l, n - |got|);
        }
        var head := FetchFromOneSpans(n - |got|);
        if head == [] {
          more := false;
        } else {
          ghost var rest := FetchAll(View(), n - |got| - |head|, per).1;
          assert rest + (head + got) == rest + head + got;
          got := head + got;
        }
      }
      FetchAllNone(View(), n - |got|, per);
      assert [] + got == got;
    }

    /** ReleaseToSpans up to where the lock may be dropped; says whether the span goes to the page heap. */
    method ReleaseToSpans(o: Obj) returns (dropped: bool)
      requires o.span in spans
      modifies this
      ensures View() == old(ReleaseOne(View(), o, per)) && dropped == old(Drops(View(), o))
    {
      var sp := spans[o.span];
      if sp.objects == [] {
        empty := Without(empty, o.span);
        nonempty := [o.span] + nonempty;
      }
      counter := counter + 1;
      dropped := sp.refcount - 1 == 0;
      if dropped {
        counter := counter - per;
        nonempty := Without(nonempty, o.span);
        numSpans := numSpans - 1;
        spans := spans - {o.span};
      } else {
        spans := spans[o.span := Span([o] + sp.objects, sp.refcount - 1)];
      }
    }
  }
}
