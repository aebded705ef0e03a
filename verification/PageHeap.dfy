/**
 * The page heap: spans of pages with eager coalescing, a boundary-tag page map, normal and
 * returned free lists, commit accounting and an optional heap limit.
 */
module PageHeap {
  import opened Collections
  import opened SpanLayout
  import opened CommitLedger
  import PageCount

  /** The largest page count whose size in bytes fits 64 bits. */
  const MAX_VALID_PAGES: nat := 0xFFFF_FFFF_FFFF

  /** The list index that a round robin starting at u reaches after k steps. */
  function Slot(u: nat, k: nat): nat {
    if MAX_PAGES < u + k then u + k - (MAX_PAGES + 1) else u + k
  }

  /** The first i lists of a round from u on are empty. */
  predicate Visited(lists: seq<seq<SpanId>>, u: nat, i: nat)
    requires |lists| == MAX_PAGES + 1 && u <= MAX_PAGES && i <= MAX_PAGES + 1
  {
    forall k: nat :: k < i ==> lists[Slot(u, k)] == []
  }

  lemma VisitNext(lists: seq<seq<SpanId>>, u: nat, i: nat)
    requires |lists| == MAX_PAGES + 1 && u <= MAX_PAGES && i <= MAX_PAGES
    ensures Visited(lists, u, 0)
    ensures Visited(lists, u, i) && lists[Slot(u, i)] == [] ==> Visited(lists, u, i + 1)
  {
  }

  /** A full round visits every list. */
  lemma RoundVisitsAll(lists: seq<seq<SpanId>>, u: nat)
    requires |lists| == MAX_PAGES + 1 && u <= MAX_PAGES && Visited(lists, u, MAX_PAGES + 1)
    ensures forall c :: 0 <= c < |lists| ==> lists[c] == []
  {
    forall c | 0 <= c < |lists| ensures lists[c] == [] {
      var k := if u <= c then c - u else c - u + MAX_PAGES + 1;
      assert Slot(u, k) == c;
    }
  }

  /** The address-ordered best-fit order: shorter first, then lower. */
  predicate Better(a: Span, b: Span) {
    a.length < b.length || (a.length == b.length && a.start < b.start)
  }

  /** Among the listed spans of at least n pages, best is the shortest and of these the lowest, if there are any. */
  ghost predicate IsBest(spans: map<SpanId, Span>, ids: seq<SpanId>, n: nat, best: Option<SpanId>) {
    match best
    case None => forall x :: x in ids && x in spans ==> spans[x].length < n
    case Some(b) =>
      && b in ids && b in spans && n <= spans[b].length
      && forall x :: x in ids && x in spans && n <= spans[x].length ==>
           spans[b].length < spans[x].length || (spans[b].length == spans[x].length && spans[b].start <= spans[x].start)
  }

  /** There is just one best span, since no two start at one page. */
  lemma BestOnlyOne(spans: map<SpanId, Span>, owner: map<nat, SpanId>, ids: seq<SpanId>, n: nat, best: Option<SpanId>)
    requires Tiles(spans, owner) && IsBest(spans, ids, n, best)
    ensures forall b: SpanId :: IsBest(spans, ids, n, Some(b)) ==> best == Some(b)
  {
    forall b: SpanId | IsBest(spans, ids, n, Some(b)) ensures best == Some(b) {
      if best.Some? {
        assert Covers(spans[b], spans[b].start) && Covers(spans[best.value], spans[best.value].start);
      }
    }
  }

  /** One search loop of AllocLarge, starting from the best found so far. */
  method ScanList(spans: map<SpanId, Span>, seen: seq<SpanId>, ids: seq<SpanId>, n: nat, start: Option<SpanId>)
    returns (best: Option<SpanId>)
    requires IsBest(spans, seen, n, start) && forall x :: x in ids ==> x in spans
    ensures IsBest(spans, seen + ids, n, best)
    ensures best == start || (best.Some? && best.value in ids)
  {
    best := start;
    var i := 0;
    assert seen + ids[..0] == seen;
    while i < |ids|
      invariant 0 <= i <= |ids|
      invariant IsBest(spans, seen + ids[..i], n, best)
      invariant best == start || (best.Some? && best.value in ids)
    {
      var id := ids[i];
      assert seen + ids[..i + 1] == (seen + ids[..i]) + [id];
      if n <= spans[id].length && (best.None? || Better(spans[id], spans[best.value])) {
        best := Some(id);
      }
      i := i + 1;
    }
    assert ids[..i] == ids;
  }

  /** Either span id of n pages has come into use, or only free memory was rearranged. */
  ghost predicate Outcome(s0: map<SpanId, Span>, o0: map<nat, SpanId>, s1: map<SpanId, Span>, o1: map<nat, SpanId>,
                          r: Option<SpanId>, n: nat) {
    match r
    case None => Keeps(s0, o0, s1, o1)
    case Some(id) => Takes(s0, o0, s1, o1, id, n)
  }

  lemma Compose(s0: map<SpanId, Span>, o0: map<nat, SpanId>, s1: map<SpanId, Span>, o1: map<nat, SpanId>,
                s2: map<SpanId, Span>, o2: map<nat, SpanId>, r: Option<SpanId>, n: nat)
    requires Tiles(s0, o0) && Tiles(s1, o1) && Keeps(s0, o0, s1, o1) && Outcome(s1, o1, s2, o2, r, n)
    ensures Outcome(s0, o0, s2, o2, r, n)
  {
    match r {
      case None => KeepsTrans(s0, o0, s1, o1, s2, o2);
      case Some(id) => KeepsTakes(s0, o0, s1, o1, s2, o2, id, n);
    }
  }

  /** The first n answers were all the same. */
  ghost predicate All(answers: nat -> bool, n: nat, answer: bool) {
    forall i: nat :: i < n ==> answers(i) == answer
  }

  /** One of the answers from lo up to hi was a refusal. */
  ghost predicate Refused(answers: nat -> bool, lo: nat, hi: nat) {
    exists i: nat :: lo <= i < hi && !answers(i)
  }

  lemma AllMore(answers: nat -> bool, n: nat, m: nat)
    requires n <= m
    ensures forall answer {:trigger All(answers, m, answer)} :: All(answers, m, answer) ==> All(answers, n, answer)
    ensures forall answer {:trigger All(answers, m, answer)} :: n < m && All(answers, m, answer) ==> answers(n) == answer
  {
  }

  lemma RefusedHere(answers: nat -> bool, lo: nat, i: nat, hi: nat)
    requires lo <= i < hi && !answers(i)
    ensures Refused(answers, lo, hi)
  {
  }

  lemma RefusedWithin(answers: nat -> bool, lo: nat, lo': nat, hi': nat, hi: nat)
    requires lo <= lo' && hi' <= hi && Refused(answers, lo', hi')
    ensures Refused(answers, lo, hi)
  {
  }

  lemma NotRefused(answers: nat -> bool, n: nat)
    ensures !Refused(answers, n, n)
  {
  }

  /** No empty list has gained a span. */
  ghost predicate NoNewNormal(lists: seq<seq<SpanId>>, lists': seq<seq<SpanId>>) {
    |lists'| == |lists| && forall c :: 0 <= c < |lists| && lists[c] == [] ==> lists'[c] == []
  }

  lemma NoNewTrans(l0: seq<seq<SpanId>>, l1: seq<seq<SpanId>>, l2: seq<seq<SpanId>>)
    ensures NoNewNormal(l0, l0) && (NoNewNormal(l0, l1) && NoNewNormal(l1, l2) ==> NoNewNormal(l0, l2))
  {
  }

  lemma RemovedShrinks(lists: seq<seq<SpanId>>, id: SpanId, s: Span)
    ensures NoNewNormal(lists, Removed(lists, Normal, id, s))
  {
  }

  /** Bytes of the decommitted span that holds a page, if one does. */
  ghost function Beside(spans: map<SpanId, Span>, owner: map<nat, SpanId>, p: int): nat {
    if p in owner && owner[p] in spans then PAGE * PagesAt(Returned, spans[owner[p]]) else 0
  }

  /** Bytes of the decommitted spans next to a span. */
  ghost function ReturnedAround(spans: map<SpanId, Span>, owner: map<nat, SpanId>, id: SpanId): nat
    requires id in spans
  {
    Beside(spans, owner, spans[id].start - 1) + Beside(spans, owner, End(spans[id]))
  }

  // ---------------------------------------------------------------- what a search finds

  /** A page that lies in a free span of at least n pages. */
  ghost predicate Run(spans: map<SpanId, Span>, owner: map<nat, SpanId>, p: nat, n: nat) {
    p in owner && owner[p] in spans && Free(spans[owner[p]]) && n <= spans[owner[p]].length
  }

  ghost predicate InFree(spans: map<SpanId, Span>, owner: map<nat, SpanId>, p: nat) {
    p in owner && owner[p] in spans && Free(spans[owner[p]])
  }

  /** The n pages from p on are all free, in whatever spans. */
  ghost predicate Stretch(spans: map<SpanId, Span>, owner: map<nat, SpanId>, p: nat, n: nat) {
    forall i: nat :: p <= i < p + n ==> InFree(spans, owner, i)
  }

  ghost predicate NoStretch(spans: map<SpanId, Span>, owner: map<nat, SpanId>, n: nat) {
    forall p: nat :: !Stretch(spans, owner, p, n)
  }

  lemma NoStretchBefore(s0: map<SpanId, Span>, o0: map<nat, SpanId>, s1: map<SpanId, Span>, o1: map<nat, SpanId>, n: nat)
    requires Keeps(s0, o0, s1, o1) && NoStretch(s1, o1, n)
    ensures NoStretch(s0, o0, n)
  {
    forall p: nat ensures !Stretch(s0, o0, p, n) {
      if Stretch(s0, o0, p, n) {
        forall i: nat | p <= i < p + n ensures InFree(s1, o1, i) {
          assert InFree(s0, o0, i);
        }
        assert Stretch(s1, o1, p, n);
      }
    }
  }

  /** Every page that lay in a free span of n pages lies in one of s pages now. */
  ghost predicate RunsKept(s0: map<SpanId, Span>, o0: map<nat, SpanId>, n: nat,
                           spans: map<SpanId, Span>, owner: map<nat, SpanId>, s: nat) {
    forall p: nat :: Run(s0, o0, p, n) ==> Run(spans, owner, p, s)
  }

  lemma RunsSame(spans: map<SpanId, Span>, owner: map<nat, SpanId>, n: nat)
    ensures RunsKept(spans, owner, n, spans, owner, n)
  {
  }

  lemma RunsStay(s0: map<SpanId, Span>, o0: map<nat, SpanId>, n: nat, s1: map<SpanId, Span>, o1: map<nat, SpanId>, s: nat,
                 s2: map<SpanId, Span>, o2: map<nat, SpanId>)
    requires RunsKept(s0, o0, n, s1, o1, s) && Keeps(s1, o1, s2, o2)
    ensures RunsKept(s0, o0, n, s2, o2, s)
  {
    forall p: nat | Run(s0, o0, p, n) ensures Run(s2, o2, p, s) {
      assert Run(s1, o1, p, s);
      assert p in o1.Keys;
    }
  }

  /** No free span has n pages or more. */
  ghost predicate NoneFit(spans: map<SpanId, Span>, n: nat) {
    forall x :: x in spans && Free(spans[x]) ==> spans[x].length < n
  }

  /** A free span of at least n pages, none of which is shorter. */
  ghost predicate Shortest(spans: map<SpanId, Span>, id: SpanId, n: nat) {
    && id in spans && Free(spans[id]) && n <= spans[id].length
    && forall x :: x in spans && Free(spans[x]) && n <= spans[x].length ==> spans[id].length <= spans[x].length
  }

  ghost predicate EmptyFrom(normal: seq<seq<SpanId>>, returned: seq<seq<SpanId>>, n: nat, s: nat)
    requires |normal| == MAX_PAGES + 1 && |returned| == MAX_PAGES + 1
  {
    forall k: nat :: n <= k < s && k < MAX_PAGES ==> normal[k] == [] && returned[k] == []
  }

  /** With the exact lists empty, the best large span is a shortest fit. */
  lemma BestIsShortest(spans: map<SpanId, Span>, normal: seq<seq<SpanId>>, returned: seq<seq<SpanId>>, n: nat, id: SpanId)
    requires ListsOk(spans, normal, returned, {}) && |normal| == MAX_PAGES + 1 && |returned| == MAX_PAGES + 1
    requires EmptyFrom(normal, returned, n, MAX_PAGES)
    requires IsBest(spans, normal[MAX_PAGES] + returned[MAX_PAGES], n, Some(id))
    ensures Shortest(spans, id, n)
  {
    forall x | x in spans && Free(spans[x]) && n <= spans[x].length ensures spans[id].length <= spans[x].length {
      var c := Cls(spans[x].length);
      assert x in normal[c] || x in returned[c];
      assert x in normal[MAX_PAGES] + returned[MAX_PAGES];
      assert !Better(spans[x], spans[id]);
    }
  }

  /** With the exact lists from n up empty and no large span long enough, nothing fits. */
  lemma EmptyListsNoneFit(spans: map<SpanId, Span>, normal: seq<seq<SpanId>>, returned: seq<seq<SpanId>>, n: nat)
    requires ListsOk(spans, normal, returned, {}) && |normal| == MAX_PAGES + 1 && |returned| == MAX_PAGES + 1
    requires EmptyFrom(normal, returned, n, MAX_PAGES)
    requires IsBest(spans, normal[MAX_PAGES] + returned[MAX_PAGES], n, None)
    ensures NoneFit(spans, n)
  {
    forall x | x in spans && Free(spans[x]) ensures spans[x].length < n {
      var c := Cls(spans[x].length);
      assert x in normal[c] || x in returned[c];
      if c == MAX_PAGES {
        assert x in normal[MAX_PAGES] + returned[MAX_PAGES];
      }
    }
  }

  /** If every early run ended up long and no large span fits, then nothing fitted to start with. */
  lemma NoneMissed(s0: map<SpanId, Span>, o0: map<nat, SpanId>, n: nat, s: nat, s1: map<SpanId, Span>, o1: map<nat, SpanId>,
                   spans: map<SpanId, Span>, owner: map<nat, SpanId>, normal: seq<seq<SpanId>>, returned: seq<seq<SpanId>>)
    requires Tiles(s0, o0) && RunsKept(s0, o0, n, s1, o1, s) && Keeps(s1, o1, spans, owner) && n <= s && MAX_PAGES <= s
    requires ListsOk(spans, normal, returned, {}) && |normal| == MAX_PAGES + 1 && |returned| == MAX_PAGES + 1
    requires IsBest(spans, normal[MAX_PAGES] + returned[MAX_PAGES], n, None)
    ensures NoneFit(s0, n)
  {
    hide RunsKept, Keeps, ListsOk, Tiles;
    forall x | x in s0 && Free(s0[x]) ensures s0[x].length < n {
      if n <= s0[x].length {
        var y := LongRun(s0, o0, n, s, s1, o1, spans, owner, normal, returned, x);
      }
    }
  }

  /** A span that fitted is now part of a large one. */
  lemma LongRun(s0: map<SpanId, Span>, o0: map<nat, SpanId>, n: nat, s: nat, s1: map<SpanId, Span>, o1: map<nat, SpanId>,
                spans: map<SpanId, Span>, owner: map<nat, SpanId>, normal: seq<seq<SpanId>>, returned: seq<seq<SpanId>>,
                x: SpanId) returns (y: SpanId)
    requires Tiles(s0, o0) && RunsKept(s0, o0, n, s1, o1, s) && Keeps(s1, o1, spans, owner) && n <= s && MAX_PAGES <= s
    requires ListsOk(spans, normal, returned, {}) && |normal| == MAX_PAGES + 1 && |returned| == MAX_PAGES + 1
    requires x in s0 && Free(s0[x]) && n <= s0[x].length
    ensures y in normal[MAX_PAGES] + returned[MAX_PAGES] && y in spans && n <= spans[y].length
  {
    RunsStay(s0, o0, n, s1, o1, s, spans, owner);
    var p := s0[x].start;
    assert Covers(s0[x], p);
    assert Run(s0, o0, p, n) && Run(spans, owner, p, s);
    y := owner[p];
    assert y in normal[MAX_PAGES] || y in returned[MAX_PAGES];
  }

  /** No live span touches the pages. */
  predicate Clear(spans: map<SpanId, Span>, start: nat, length: nat) {
    0 < start && forall x :: x in spans ==> End(spans[x]) <= start || start + length <= spans[x].start
  }

  /** What releasing may change and is compared before and after. */
  datatype Snap = Snap(spans: map<SpanId, Span>, owner: map<nat, SpanId>, normal: seq<seq<SpanId>>,
                       free: int, unmapped: int, tries: nat, lost: nat)

  /**
   * In aggressive mode a release takes two tries, from a on: the span itself, and, if that works,
   * the span again once it is merged. Whether both tries of some release before b work.
   */
  predicate Doubled(f: nat -> bool, a: nat, b: nat)
    decreases b - a
  {
    a + 2 <= b && ((f(a) && f(a + 1)) || Doubled(f, a + 2, b))
  }

  lemma {:induction false} DoubledSplit(f: nat -> bool, a: nat, m: nat, b: nat)
    requires a <= m <= b && (m - a) % 2 == 0
    ensures Doubled(f, a, b) <==> Doubled(f, a, m) || Doubled(f, m, b)
    decreases b - a
  {
    if a < m {
      DoubledSplit(f, a + 2, m, b);
    }
  }

  /** Bytes are lost exactly if a span was decommitted twice; pages move only if the first try works. */
  ghost predicate LossIs(aggressive: bool, f: nat -> bool, a: Snap, b: Snap, pages: nat) {
    && a.tries <= b.tries && a.lost <= b.lost
    && (a.lost == b.lost <==> !(aggressive && Doubled(f, a.tries, b.tries)))
    && (aggressive ==> if pages == 0 then b.tries <= a.tries + 1 else a.tries + 2 <= b.tries && f(a.tries))
  }

  /** No release is left half done between the two. */
  predicate Even(aggressive: bool, a: Snap, b: Snap) {
    aggressive ==> (b.tries - a.tries) % 2 == 0
  }

  /** This many pages have moved from free to unmapped; spans in use and free memory are otherwise kept. */
  ghost predicate Moved(aggressive: bool, f: nat -> bool, a: Snap, b: Snap, pages: nat) {
    && Keeps(a.spans, a.owner, b.spans, b.owner) && NoNewNormal(a.normal, b.normal)
    && b.free == a.free - PAGE * pages && b.unmapped == a.unmapped + PAGE * pages
    && LossIs(aggressive, f, a, b, pages)
  }

  lemma MovedNot(aggressive: bool, f: nat -> bool, a: Snap)
    requires Keeps(a.spans, a.owner, a.spans, a.owner)
    ensures Moved(aggressive, f, a, a, 0) && Even(aggressive, a, a)
  {
  }

  lemma MovedMore(aggressive: bool, f: nat -> bool, a: Snap, b: Snap, c: Snap, m: nat, n: nat)
    requires Moved(aggressive, f, a, b, m) && Moved(aggressive, f, b, c, n) && Even(aggressive, a, b)
    ensures Moved(aggressive, f, a, c, m + n) && a.tries <= b.tries <= c.tries
    ensures Even(aggressive, b, c) ==> Even(aggressive, a, c)
  {
    KeepsTrans(a.spans, a.owner, b.spans, b.owner, c.spans, c.owner);
    NoNewTrans(a.normal, b.normal, c.normal);
    LossMore(aggressive, f, a, b, c, m, n);
    hide Keeps, NoNewNormal, LossIs;
  }

  /** One release, as the tries go. */
  lemma LossOnce(aggressive: bool, f: nat -> bool, a: Snap, b: Snap, pages: nat)
    requires (pages == 0 <==> !f(a.tries)) && b.tries == a.tries + (if aggressive && f(a.tries) then 2 else 1)
    requires b.lost == a.lost + (if aggressive && f(a.tries) && f(a.tries + 1) then PAGE * pages else 0)
    ensures LossIs(aggressive, f, a, b, pages) && (0 < pages ==> Even(aggressive, a, b))
  {
  }

  lemma LossMore(aggressive: bool, f: nat -> bool, a: Snap, b: Snap, c: Snap, m: nat, n: nat)
    requires LossIs(aggressive, f, a, b, m) && LossIs(aggressive, f, b, c, n) && Even(aggressive, a, b)
    ensures LossIs(aggressive, f, a, c, m + n)
  {
    if aggressive {
      DoubledSplit(f, a.tries, b.tries, c.tries);
    }
  }

  lemma MovedLess(aggressive: bool, f: nat -> bool, a: Snap, b: Snap, n: nat)
    requires Moved(aggressive, f, a, b, n) && 0 < n
    ensures b.free < a.free
  {
  }

  /** A region of at least n pages that no live span touches. */
  predicate Offered(spans: map<SpanId, Span>, s: Span, n: nat) {
    Clear(spans, s.start, s.length) && n <= s.length && s.location == InUse && s.sizeclass == 0
  }

  /** There is an address above all spans. */
  lemma BeyondAll(spans: map<SpanId, Span>, ids: set<SpanId>) returns (b: nat)
    requires ids <= spans.Keys
    ensures 0 < b && forall x :: x in ids ==> End(spans[x]) <= b
    decreases |ids|
  {
    b := 1;
    if ids != {} {
      var x :| x in ids;
      b := BeyondAll(spans, ids - {x});
      b := if End(spans[x]) <= b then b else End(spans[x]);
      assert ids == (ids - {x}) + {x};
    }
  }

  /** The spans, the pages they hold and the free lists when a search of these was made. */
  datatype Attempt = Attempt(spans: map<SpanId, Span>, owner: map<nat, SpanId>,
                             normal: seq<seq<SpanId>>, returned: seq<seq<SpanId>>)

  /** The two large lists. */
  function LargeOf(at: Attempt): seq<SpanId> {
    if |at.normal| == MAX_PAGES + 1 && |at.returned| == MAX_PAGES + 1
    then at.normal[MAX_PAGES] + at.returned[MAX_PAGES] else []
  }

  /** The large lists hold exactly the free spans of the largest class. */
  ghost predicate AllLarge(at: Attempt) {
    forall x :: x in LargeOf(at) <==> x in at.spans && Free(at.spans[x]) && MAX_PAGES <= at.spans[x].length
  }

  /**
   * The span that a search takes among those of its length: the first normal one, or the first
   * returned one only if there is no normal one; among the large ones the best fit.
   */
  ghost predicate Picked(at: Attempt, n: nat, id: SpanId) {
    && |at.normal| == MAX_PAGES + 1 && |at.returned| == MAX_PAGES + 1
    && id in at.spans && Free(at.spans[id]) && n <= at.spans[id].length
    && var c := Cls(at.spans[id].length);
       if c == MAX_PAGES then AllLarge(at) && IsBest(at.spans, LargeOf(at), n, Some(id))
       else if at.normal[c] != [] then id == at.normal[c][0]
       else at.returned[c] != [] && id == at.returned[c][0]
  }

  /** The front of the span picked at the attempt has been taken, and nothing else has happened since. */
  ghost predicate TakenAt(at: Attempt, n: nat, id: SpanId, spans: map<SpanId, Span>, owner: map<nat, SpanId>) {
    && ListsOk(at.spans, at.normal, at.returned, {}) && Picked(at, n, id)
    && Takes(at.spans, at.owner, spans, owner, id, n)
    && id in spans && id in at.spans && spans[id].start == at.spans[id].start
  }

  lemma LargePicked(at: Attempt, n: nat, id: SpanId)
    requires |at.normal| == MAX_PAGES + 1 && |at.returned| == MAX_PAGES + 1
    requires AllLarge(at) && IsBest(at.spans, LargeOf(at), n, Some(id))
    ensures Picked(at, n, id)
  {
  }

  lemma FirstPicked(at: Attempt, n: nat, s: nat, id: SpanId)
    requires ListsOk(at.spans, at.normal, at.returned, {})
    requires |at.normal| == MAX_PAGES + 1 && |at.returned| == MAX_PAGES + 1 && n <= s < MAX_PAGES
    requires if at.normal[s] != [] then id == at.normal[s][0] else at.returned[s] != [] && id == at.returned[s][0]
    ensures Picked(at, n, id)
  {
    assert id in at.normal[s] || id in at.returned[s];
  }

  /** All exact lists from n up to s are empty. */
  ghost predicate NoneBefore(at: Attempt, n: nat, s: nat) {
    && |at.normal| == MAX_PAGES + 1 && |at.returned| == MAX_PAGES + 1
    && forall k: nat :: n <= k < s && k < MAX_PAGES ==> at.normal[k] == [] && at.returned[k] == []
  }

  /** If the first length with free spans has a normal one, the first of these is taken at once, whatever the limit. */
  ghost predicate AtOnce(at0: Attempt, n: nat, r: Option<SpanId>, at: Attempt) {
    forall c: nat :: n <= c < MAX_PAGES && NoneBefore(at0, n, c) && at0.normal[c] != [] ==>
      r == Some(at0.normal[c][0]) && at == at0
  }

  ghost predicate NoNormalAtOnce(at0: Attempt, n: nat, s: nat) {
    forall c: nat :: n <= c < s && c < MAX_PAGES && NoneBefore(at0, n, c) ==> at0.normal[c] == []
  }

  lemma NoneYet(at: Attempt, n: nat)
    ensures NoNormalAtOnce(at, n, n)
    ensures |at.normal| == MAX_PAGES + 1 && |at.returned| == MAX_PAGES + 1 ==> NoneBefore(at, n, n)
  {
  }

  lemma OnceHere(at0: Attempt, n: nat, s: nat, at: Attempt, id: SpanId)
    requires NoNormalAtOnce(at0, n, s) && n <= s < MAX_PAGES && (NoneBefore(at0, n, s) ==> at == at0)
    requires |at.normal| == MAX_PAGES + 1 && at.normal[s] != [] && id == at.normal[s][0]
    ensures AtOnce(at0, n, Some(id), at)
  {
    forall c: nat | n <= c < MAX_PAGES && NoneBefore(at0, n, c) && at0.normal[c] != []
      ensures Some(id) == Some(at0.normal[c][0]) && at == at0
    {
      assert s <= c && NoneBefore(at0, n, s);
    }
  }

  lemma Shorter(at: Attempt, n: nat, s: nat, c: nat)
    ensures NoneBefore(at, n, c) && !NoneBefore(at, n, s) ==> c < s
  {
  }

  lemma OnceLater(at0: Attempt, n: nat, s: nat)
    requires NoNormalAtOnce(at0, n, s) && n <= s < MAX_PAGES && (NoneBefore(at0, n, s) ==> at0.normal[s] == [])
    ensures NoNormalAtOnce(at0, n, s + 1)
    ensures NoneBefore(at0, n, s + 1) <==> NoneBefore(at0, n, s) && at0.returned[s] == []
    ensures !NoneBefore(at0, n, s + 1) ==> forall r: Option<SpanId>, at {:trigger AtOnce(at0, n, r, at)} :: AtOnce(at0, n, r, at)
  {
    if !NoneBefore(at0, n, s + 1) {
      forall c: nat | n <= c < MAX_PAGES && NoneBefore(at0, n, c) ensures at0.normal[c] == [] {
        Shorter(at0, n, s + 1, c);
      }
    }
  }

  lemma OnceNever(at0: Attempt, n: nat, s: nat)
    requires NoNormalAtOnce(at0, n, s) && MAX_PAGES <= s
    ensures forall r: Option<SpanId>, at {:trigger AtOnce(at0, n, r, at)} :: AtOnce(at0, n, r, at)
  {
  }

  /** An exact list holds all free spans of its length, so a returned span is picked only if no normal one has its length. */
  lemma ReturnedLast(at: Attempt, n: nat, id: SpanId, x: SpanId)
    requires ListsOk(at.spans, at.normal, at.returned, {}) && Picked(at, n, id)
    requires at.spans[id].location == Returned && at.spans[id].length < MAX_PAGES
    requires x in at.spans && at.spans[x].length == at.spans[id].length
    ensures at.spans[x].location != Normal
  {
    var c := Cls(at.spans[id].length);
    if at.normal[c] != [] {
      assert at.normal[c][0] in at.normal[c];
    }
  }

  class Heap {
    /** Whether free spans are decommitted at once. */
    const aggressive: bool
    /** Heap limit in pages; 0 means none. */
    const limit: nat
    /** How eagerly freed memory is released in passing; next to nothing means not at all. */
    const rate: real
    /** Whether the i-th request for memory is met, by the system or for the page map. */
    const gives: nat -> bool
    /** Whether the i-th attempt to give memory back to the system works. */
    const releases: nat -> bool

    var spans: map<SpanId, Span>
    var pagemap: map<nat, SpanId>
    var normal: seq<seq<SpanId>>
    var returned: seq<seq<SpanId>>
    var systemBytes: nat
    var freeBytes: int
    var unmappedBytes: int
    var committedBytes: int
    var releaseIndex: nat
    var scavengeCounter: int
    var systemTaken: nat
    var nextId: SpanId
    var asked: nat
    var tries: nat
    ghost var owner: map<nat, SpanId>
    /** Bytes that the commit accounting has lost track of. */
    ghost var lost: nat

    /** Everything but the balance, apart from spans that are on no list at the moment. */
    ghost predicate Sound(floating: set<SpanId>)
      reads `spans, `owner, `pagemap, `nextId, `normal, `returned, `freeBytes, `unmappedBytes, `systemBytes, `systemTaken
    {
      && SpansOk(aggressive, spans, owner, pagemap, nextId, floating)
      && ListsOk(spans, normal, returned, floating)
      && CountsRight()
      && PAGE * PageCount.Recorded(owner) <= systemBytes <= systemTaken
    }

    /** free_bytes and unmapped_bytes are the bytes on the normal and on the returned lists. */
    ghost predicate CountsRight()
      reads `spans, `normal, `returned, `freeBytes, `unmappedBytes
    {
      && freeBytes == PAGE * TotalPages(spans, normal)
      && unmappedBytes == PAGE * TotalPages(spans, returned)
    }

    ghost function Books(): Ledger
      reads `systemBytes, `freeBytes, `unmappedBytes, `committedBytes
    {
      Ledger(systemBytes, freeBytes, unmappedBytes, committedBytes)
    }

    /** unmapped_bytes + committed_bytes == system_bytes. */
    ghost predicate Balanced()
      reads this
    {
      Deficit(Books()) == 0
    }

    /**
     * Outside aggressive mode nothing is lost. In aggressive mode, as long as every release has
     * worked no free span is committed, as long as none has worked none is decommitted, and in
     * both cases nothing is lost.
     */
    ghost predicate OneSided()
      reads `lost, `tries, `freeBytes, `unmappedBytes
    {
      OneSidedAt(aggressive, releases, freeBytes, unmappedBytes, tries, lost)
    }

    static ghost predicate OneSidedAt(aggressive: bool, f: nat -> bool, free: int, unmapped: int, tries: nat, lost: nat) {
      && (!aggressive ==> lost == 0)
      && (aggressive && All(f, tries, true) ==> free == 0 && lost == 0)
      && (aggressive && All(f, tries, false) ==> unmapped == 0 && lost == 0)
    }

    /** A release of something committed has either worked, or changed nothing. */
    static lemma OneSidedRelease(aggressive: bool, f: nat -> bool, a: Snap, b: Snap)
      requires OneSidedAt(aggressive, f, a.free, a.unmapped, a.tries, a.lost) && 0 < a.free && a.tries < b.tries
      requires !f(a.tries) ==> b.unmapped == a.unmapped && b.lost == a.lost
      requires !aggressive ==> b.lost == a.lost
      ensures OneSidedAt(aggressive, f, b.free, b.unmapped, b.tries, b.lost)
    {
      AllMore(f, a.tries, b.tries);
    }

    ghost predicate Valid()
      reads this
    {
      Sound({}) && Deficit(Books()) == lost && OneSided() && releaseIndex <= MAX_PAGES + 1
    }

    constructor (aggressive: bool, limit: nat, rate: real, gives: nat -> bool, releases: nat -> bool)
      ensures Valid() && this.aggressive == aggressive && this.limit == limit && this.rate == rate
      ensures this.gives == gives && this.releases == releases
      ensures Unused()
    {
      this.aggressive := aggressive;
      this.limit := limit;
      this.rate := rate;
      this.gives := gives;
      this.releases := releases;
      spans, pagemap, owner := map[], map[], map[];
      normal, returned := NoLists(), NoLists();
      systemBytes, freeBytes, unmappedBytes, committedBytes := 0, 0, 0, 0;
      releaseIndex, scavengeCounter, systemTaken, nextId := MAX_PAGES, 0, 0, 0;
      asked, tries, lost := 0, 0, 0;
      new;
      hide *;
      FreshOk();
    }

    /** No memory has been asked for yet. */
    ghost predicate Unused()
      reads this
    {
      spans == map[] && owner == map[] && freeBytes == 0 && lost == 0 && asked == 0 && tries == 0
    }

    static function NoLists(): (lists: seq<seq<SpanId>>)
      ensures |lists| == MAX_PAGES + 1 && forall c :: 0 <= c <= MAX_PAGES ==> lists[c] == []
    {
      seq(MAX_PAGES + 1, i => [])
    }

    lemma FreshOk()
      requires spans == map[] && pagemap == map[] && owner == map[] && nextId == 0 && lost == 0 && tries == 0
      requires |normal| == MAX_PAGES + 1 && |returned| == MAX_PAGES + 1
      requires forall c :: 0 <= c <= MAX_PAGES ==> normal[c] == [] && returned[c] == []
      requires freeBytes == unmappedBytes == committedBytes == 0 && systemBytes == systemTaken == 0
      requires releaseIndex == MAX_PAGES && asked == 0
      ensures Valid() && Unused()
    {
      EmptyOk(aggressive, normal, returned);
      hide SpansOk, ListsOk, TotalPages, All;
      assert PageCount.Recorded(owner) == 0;
    }

    static lemma EmptyOk(aggressive: bool, normal: seq<seq<SpanId>>, returned: seq<seq<SpanId>>)
      requires |normal| == MAX_PAGES + 1 && |returned| == MAX_PAGES + 1
      requires forall c :: 0 <= c <= MAX_PAGES ==> normal[c] == [] && returned[c] == []
      ensures SpansOk(aggressive, map[], map[], map[], 0, {}) && ListsOk(map[], normal, returned, {})
      ensures TotalPages(map[], normal) == 0 && TotalPages(map[], returned) == 0
    {
      PagesOnZero(map[], normal, |normal|);
      PagesOnZero(map[], returned, |returned|);
    }

    // -------------------------------------------------------------- primitives

    /** NewSpan: a descriptor that is not in use, possibly one that was deleted before. */
    method NewSpan() returns (id: SpanId)
      requires Sound({})
      modifies this`nextId
      ensures Sound({}) && id !in spans && id < nextId
    {
      hide PageCount.Recorded;
      id := *;
      if id in spans || nextId <= id {
        id := nextId;
        nextId := nextId + 1;
      }
    }

    method RemoveFromFreeList(id: SpanId, ghost floating: set<SpanId>)
      requires Sound(floating) && id in spans && id !in floating && Free(spans[id])
      modifies this`normal, this`returned, this`freeBytes, this`unmappedBytes
      ensures Sound(floating + {id})
      ensures freeBytes == old(freeBytes) - PAGE * PagesAt(Normal, spans[id])
      ensures unmappedBytes == old(unmappedBytes) - PAGE * PagesAt(Returned, spans[id])
      ensures normal == Removed(old(normal), Normal, id, spans[id])
    {
      hide SpansOk, ListsOk, TotalPages, PageCount.Recorded;
      RemoveOk(spans, normal, returned, floating, id);
      FewerExceptions(aggressive, spans, owner, pagemap, nextId, floating, floating + {id});
      var s := spans[id];
      if s.location == Normal {
        freeBytes := freeBytes - PAGE * s.length;
        normal := Removed(normal, Normal, id, s);
      } else {
        unmappedBytes := unmappedBytes - PAGE * s.length;
        returned := Removed(returned, Returned, id, s);
      }
    }

    method PrependToFreeList(id: SpanId, ghost floating: set<SpanId>)
      requires Sound(floating) && id in spans && id in floating && Free(spans[id])
      requires SpansOk(aggressive, spans, owner, pagemap, nextId, floating - {id})
      modifies this`normal, this`returned, this`freeBytes, this`unmappedBytes
      ensures Sound(floating - {id})
      ensures freeBytes == old(freeBytes) + PAGE * PagesAt(Normal, spans[id])
      ensures unmappedBytes == old(unmappedBytes) + PAGE * PagesAt(Returned, spans[id])
      ensures normal == Prepended(old(normal), Normal, id, spans[id])
    {
      hide SpansOk, ListsOk, TotalPages, PageCount.Recorded;
      PrependOk(spans, normal, returned, floating, id);
      var s := spans[id];
      if s.location == Normal {
        freeBytes := freeBytes + PAGE * s.length;
        normal := Prepended(normal, Normal, id, s);
      } else {
        unmappedBytes := unmappedBytes + PAGE * s.length;
        returned := Prepended(returned, Returned, id, s);
      }
    }

    /** Merge a free neighbour into a floating span: off its list, descriptor deleted, range joined. */
    method AbsorbNeighbour(id: SpanId, other: SpanId)
      requires Sound({id}) && id in spans && other in spans && id != other
      requires Free(spans[id]) && Free(spans[other]) && Adjacent(spans[id], spans[other])
      modifies this`spans, this`owner, this`pagemap, this`normal, this`returned, this`freeBytes, this`unmappedBytes
      ensures Sound({id})
      ensures spans == (old(spans) - {other})[id := Joined(old(spans[id]), old(spans[other]))]
      ensures Keeps(old(spans), old(owner), spans, owner)
      ensures freeBytes == old(freeBytes) - PAGE * PagesAt(Normal, old(spans[other]))
      ensures unmappedBytes == old(unmappedBytes) - PAGE * PagesAt(Returned, old(spans[other]))
      ensures owner == Absorb(old(owner), id, other)
      ensures old(spans[other]).location == Returned ==> normal == old(normal)
    {
      hide SpansOk, ListsOk, Keeps, TotalPages, PageCount.Recorded, Absorb, JoinMap;
      RemoveFromFreeList(other, {id});
      assert {id} + {other} == {id, other};
      JoinOk(aggressive, spans, owner, pagemap, nextId, id, other);
      ghost var spans' := (spans - {other})[id := Joined(spans[id], spans[other])];
      FloatersOk(spans, spans', normal, returned, {id, other}, {id});
      AbsorbKeys(owner, id, other);
      PageCount.SameCount(owner, Absorb(owner, id, other));
      pagemap := JoinMap(pagemap, id, spans[id], spans[other]);
      owner := Absorb(owner, id, other);
      spans := (spans - {other})[id := Joined(spans[id], spans[other])];
    }

    function GetDescriptor(p: nat): Option<SpanId>
      reads this
    {
      if p in pagemap then Some(pagemap[p]) else None
    }

    predicate MayMergeSpans(id: SpanId, other: SpanId)
      requires id in spans && other in spans
      reads this
    {
      if aggressive then spans[other].location != InUse else spans[id].location == spans[other].location
    }

    /** The first half of MergeIntoFreeList: the span that ends where this one starts. */
    method MergeLeft(id: SpanId) returns (prev: Neighbour)
      requires Sound({id}) && id in spans && Free(spans[id])
      modifies this`spans, this`owner, this`pagemap, this`normal, this`returned, this`freeBytes, this`unmappedBytes
      ensures Sound({id}) && Keeps(old(spans), old(owner), spans, owner)
      ensures id in spans && LeftDone(aggressive, spans, id) && MayMerge(aggressive, old(spans[id]), prev)
      ensures spans[id].length == old(spans[id]).length + LengthOf(prev)
      ensures spans[id].location == old(spans[id]).location && End(spans[id]) == End(old(spans[id]))
      ensures freeBytes == old(freeBytes) - BytesOf(prev, Normal)
      ensures unmappedBytes == old(unmappedBytes) - BytesOf(prev, Returned)
      ensures prev.Merged? ==> !old(LeftDone(aggressive, spans, id))
      ensures BytesOf(prev, Normal) == 0 ==> normal == old(normal)
      ensures aggressive ==> BytesOf(prev, Returned) == old(Beside(spans, owner, spans[id].start - 1))
      ensures Beside(spans, owner, End(spans[id])) == old(Beside(spans, owner, End(spans[id])))
      ensures old(RightDone(aggressive, spans, id)) ==> RightDone(aggressive, spans, id)
    {
      hide PageCount.Recorded, TotalPages, ListsOk;
      prev := NoneMerged;
      PrevEnds(spans, owner, id);
      NeighbourFound(spans, owner, pagemap, id);
      KeepsRefl(spans, owner);
      var p := spans[id].start;
      var found := GetDescriptor(p - 1);
      if found.Some? && MayMergeSpans(id, found.value) {
        prev := Merged(spans[found.value]);
        LeftAbsorbed(aggressive, spans, id, found.value);
        LeftBeside(aggressive, spans, owner, id, found.value);
        hide Beside, RightDone, LeftDone, SpansOk, Keeps;
        AbsorbNeighbour(id, found.value);
      } else {
        LeftIsOwner(spans, owner, id);
      }
    }

    /** What absorbing the left neighbour does, and does not do, on the right. */
    static lemma LeftBeside(aggressive: bool, spans: map<SpanId, Span>, owner: map<nat, SpanId>, a: SpanId, b: SpanId)
      requires Tiles(spans, owner) && a in spans && b in spans && a != b && End(spans[b]) == spans[a].start
      requires Mergeable(aggressive, spans[a], spans[b])
      ensures var spans' := (spans - {b})[a := Joined(spans[a], spans[b])];
              && Beside(spans, owner, spans[a].start - 1) == PAGE * PagesAt(Returned, spans[b])
              && Beside(spans', Absorb(owner, a, b), End(spans'[a])) == Beside(spans, owner, End(spans[a]))
              && (RightDone(aggressive, spans, a) ==> RightDone(aggressive, spans', a))
              && !LeftDone(aggressive, spans, a)
    {
      var spans' := (spans - {b})[a := Joined(spans[a], spans[b])];
      assert Covers(spans[b], spans[a].start - 1);
      assert !Covers(spans[b], End(spans[a])) && !Covers(spans[a], End(spans[a]));
      assert End(spans'[a]) == End(spans[a]);
    }

    /** The second half: the span that starts where this one ends. */
    method MergeRight(id: SpanId) returns (next: Neighbour)
      requires Sound({id}) && id in spans && Free(spans[id]) && LeftDone(aggressive, spans, id)
      modifies this`spans, this`owner, this`pagemap, this`normal, this`returned, this`freeBytes, this`unmappedBytes
      ensures Sound({id}) && Keeps(old(spans), old(owner), spans, owner)
      ensures id in spans && LeftDone(aggressive, spans, id) && RightDone(aggressive, spans, id)
      ensures MayMerge(aggressive, old(spans[id]), next)
      ensures spans[id].length == old(spans[id]).length + LengthOf(next)
      ensures spans[id].location == old(spans[id]).location
      ensures freeBytes == old(freeBytes) - BytesOf(next, Normal)
      ensures unmappedBytes == old(unmappedBytes) - BytesOf(next, Returned)
      ensures next.Merged? ==> !old(RightDone(aggressive, spans, id))
      ensures BytesOf(next, Normal) == 0 ==> normal == old(normal)
      ensures aggressive ==> BytesOf(next, Returned) == old(Beside(spans, owner, End(spans[id])))
    {
      hide PageCount.Recorded, TotalPages, ListsOk;
      next := NoneMerged;
      NextStarts(spans, owner, id);
      NeighbourFound(spans, owner, pagemap, id);
      KeepsRefl(spans, owner);
      var e := End(spans[id]);
      var found := GetDescriptor(e);
      if found.Some? && MayMergeSpans(id, found.value) {
        next := Merged(spans[found.value]);
        RightAbsorbed(aggressive, spans, id, found.value);
        AbsorbNeighbour(id, found.value);
      } else {
        RightIsOwner(spans, owner, id);
      }
    }

    /** DecommitSpan: the system may refuse. */
    method DecommitSpan(length: nat) returns (released: bool)
      modifies this`committedBytes, this`tries
      ensures tries == old(tries) + 1 && released == releases(old(tries))
      ensures committedBytes == old(committedBytes) - (if released then PAGE * length else 0)
    {
      released := releases(tries);
      tries := tries + 1;
      if released {
        committedBytes := committedBytes - PAGE * length;
      }
    }

    /**
     * Coalesce a floating free span with its neighbours and put the result on its list. In
     * aggressive mode both neighbours are taken if free, and the whole is decommitted if possible.
     */
    method MergeIntoFreeList(id: SpanId) returns (prev: Neighbour, next: Neighbour)
      requires Sound({id}) && id in spans && Free(spans[id])
      modifies this`spans, this`owner, this`pagemap, this`normal, this`returned,
               this`freeBytes, this`unmappedBytes, this`committedBytes, this`tries
      ensures Sound({}) && Keeps(old(spans), old(owner), spans, owner)
      ensures tries == old(tries) + if aggressive then 1 else 0
      ensures MayMerge(aggressive, old(spans[id]), prev) && MayMerge(aggressive, old(spans[id]), next)
      ensures Books() == MergeLedger(aggressive, releases(old(tries)), old(Books()), old(spans[id]), prev, next)
      ensures BytesOf(prev, Normal) + BytesOf(next, Normal) <= old(freeBytes)
      ensures BytesOf(prev, Returned) + BytesOf(next, Returned) <= old(unmappedBytes)
      ensures aggressive ==> Temp(aggressive, prev, next) == old(ReturnedAround(spans, owner, id))
      ensures old(LeftDone(aggressive, spans, id) && RightDone(aggressive, spans, id)) ==> prev == next == NoneMerged
      ensures old(spans[id]).location == Returned && BytesOf(prev, Normal) == BytesOf(next, Normal) == 0 ==>
                normal == old(normal)
    {
      hide Sound, Keeps, LeftDone, RightDone, BytesOf, LengthOf, Beside;
      prev := MergeLeft(id);
      NothingNegative({id});
      ghost var spans1, owner1 := spans, owner;
      next := MergeRight(id);
      NothingNegative({id});
      KeepsTrans(old(spans), old(owner), spans1, owner1, spans, owner);
      ghost var spans2, owner2 := spans, owner;
      Settle(id, Temp(aggressive, prev, next));
      KeepsTrans(old(spans), old(owner), spans2, owner2, spans, owner);
    }

    lemma NothingNegative(floating: set<SpanId>)
      requires Sound(floating)
      ensures 0 <= freeBytes && 0 <= unmappedBytes
    {
    }

    /** The end of MergeIntoFreeList: decommit the merged span in aggressive mode, then list it. */
    method Settle(id: SpanId, temp: nat)
      requires Sound({id}) && id in spans && Free(spans[id])
      requires LeftDone(aggressive, spans, id) && RightDone(aggressive, spans, id)
      modifies this`spans, this`normal, this`returned, this`freeBytes, this`unmappedBytes, this`committedBytes, this`tries
      ensures Sound({}) && Keeps(old(spans), old(owner), spans, owner)
      ensures tries == old(tries) + if aggressive then 1 else 0
      ensures var total := PAGE * old(spans[id]).length;
              var loc := FinalLocation(aggressive, releases(old(tries)), old(spans[id]));
              && committedBytes == old(committedBytes) + (if aggressive && releases(old(tries)) then temp - total else 0)
              && freeBytes == old(freeBytes) + (if loc == Normal then total else 0)
              && unmappedBytes == old(unmappedBytes) + (if loc == Returned then total else 0)
      ensures old(spans[id]).location == Returned ==> normal == old(normal)
    {
      hide SpansOk, ListsOk, Keeps, LeftDone, RightDone, TotalPages, PageCount.Recorded;
      var loc := spans[id].location;
      if aggressive {
        var released := DecommitSpan(spans[id].length);
        if released {
          loc := Returned;
          committedBytes := committedBytes + temp;
        }
      }
      SettleOk(aggressive, spans, owner, pagemap, nextId, id, loc);
      ghost var spans' := spans[id := spans[id].(location := loc)];
      FloatersOk(spans, spans', normal, returned, {id}, {id});
      FewerExceptions(aggressive, spans', owner, pagemap, nextId, {}, {id});
      spans := spans[id := spans[id].(location := loc)];
      assert {id} - {id} == {};
      PrependToFreeList(id, {id});
    }

    // -------------------------------------------------------------- release

    /** In aggressive mode both the span and, after merging, the span once more are decommitted. */
    predicate DecommitsTwice(t: nat) {
      aggressive && releases(t) && releases(t + 1)
    }

    /**
     * Release the last span of a normal list: 0 exactly if the system refuses. The bytes of a span
     * that is decommitted twice are lost, so only then is a balanced ledger unbalanced.
     */
    method ReleaseLastNormalSpan(c: nat) returns (length: nat)
      requires Valid() && c <= MAX_PAGES && normal[c] != []
      modifies this`spans, this`owner, this`pagemap, this`normal, this`returned,
               this`freeBytes, this`unmappedBytes, this`committedBytes, this`tries, this`lost
      ensures Valid() && Moved(aggressive, releases, old(Now()), Now(), length)
      ensures length == 0 <==> !releases(old(tries))
      ensures tries == old(tries) + (if aggressive && releases(old(tries)) then 2 else 1)
      ensures lost == old(lost) + (if DecommitsTwice(old(tries)) then PAGE * length else 0)
      ensures old(Balanced()) ==> (Balanced() <==> !DecommitsTwice(old(tries)))
      ensures var id := old(normal[c])[|old(normal[c])| - 1];
              id in old(spans) && length == (if releases(old(tries)) then old(spans)[id].length else 0)
      ensures length == 0 ==> normal == old(normal)
    {
      hide Sound, Keeps, LossIs, NoNewNormal, OneSidedAt;
      KeepsSelf();
      SomethingNormal(c);
      var id := normal[c][|normal[c]| - 1];
      ListedIs(c, id);
      SpanLengths(id);
      assert id in normal[c];
      NothingLost();
      var released := DecommitSpan(spans[id].length);
      if !released {
        OneSidedRelease(aggressive, releases, old(Now()), Now());
        NoNewTrans(normal, normal, normal);
        LossOnce(aggressive, releases, old(Now()), Now(), 0);
        return 0;
      }
      length := spans[id].length;
      TakeToReturned(id);
      OneSidedRelease(aggressive, releases, old(Now()), Now());
      LossOnce(aggressive, releases, old(Now()), Now(), length);
    }

    /** The rest of ReleaseLastNormalSpan, once the span is decommitted. */
    method TakeToReturned(id: SpanId)
      requires Sound({}) && id in spans && spans[id].location == Normal
      requires Deficit(Books()) == lost + PAGE * spans[id].length && (!aggressive ==> lost == 0)
      modifies this`spans, this`owner, this`pagemap, this`normal, this`returned,
               this`freeBytes, this`unmappedBytes, this`committedBytes, this`tries, this`lost
      ensures Sound({}) && Deficit(Books()) == lost
      ensures Keeps(old(spans), old(owner), spans, owner) && NoNewNormal(old(normal), normal)
      ensures tries == old(tries) + (if aggressive then 1 else 0)
      ensures lost == old(lost) + (if aggressive && releases(old(tries)) then PAGE * old(spans[id]).length else 0)
      ensures freeBytes == old(freeBytes) - PAGE * old(spans[id]).length
      ensures unmappedBytes == old(unmappedBytes) + PAGE * old(spans[id]).length
    {
      hide Sound, Keeps, NoNewNormal, LeftDone, RightDone;
      DonesHere(id);
      RemoveFromFreeList(id, {});
      assert {} + {id} == {id};
      RemovedShrinks(old(normal), id, spans[id]);
      MoveToReturned(id);
    }

    lemma NothingLost()
      requires OneSided()
      ensures !aggressive ==> lost == 0
    {
    }

    /** Relabel the span and merge it. */
    method MoveToReturned(id: SpanId)
      requires Sound({id}) && id in spans && spans[id].location == Normal
      requires aggressive ==> LeftDone(aggressive, spans, id) && RightDone(aggressive, spans, id)
      requires Deficit(Books()) == lost + PAGE * spans[id].length && (!aggressive ==> lost == 0)
      modifies this`spans, this`owner, this`pagemap, this`normal, this`returned,
               this`freeBytes, this`unmappedBytes, this`committedBytes, this`tries, this`lost
      ensures Sound({}) && Deficit(Books()) == lost && (!aggressive ==> lost == 0)
      ensures Keeps(old(spans), old(owner), spans, owner) && normal == old(normal)
      ensures tries == old(tries) + (if aggressive then 1 else 0)
      ensures lost == old(lost) + (if aggressive && releases(old(tries)) then PAGE * old(spans[id]).length else 0)
      ensures freeBytes == old(freeBytes) && unmappedBytes == old(unmappedBytes) + PAGE * old(spans[id]).length
    {
      hide SpansOk, ListsOk, Keeps, TotalPages, PageCount.Recorded, LeftDone, RightDone;
      ReturnOk(aggressive, spans, owner, pagemap, nextId, normal, returned, id);
      RelabelDone(aggressive, spans, id, Returned);
      ghost var t0 := tries;
      spans := spans[id := spans[id].(location := Returned)];
      ghost var books, s, spans1, owner1 := Books(), spans[id], spans, owner;
      var prev, next := MergeIntoFreeList(id);
      KeepsTrans(old(spans), old(owner), spans1, owner1, spans, owner);
      MergeDeficit(aggressive, releases(t0), books, s, prev, next);
      if aggressive && releases(t0) {
        // a second release of the same span: the bytes are taken off the committed ones twice
        lost := lost + PAGE * s.length;
      }
    }

    /** In aggressive mode relabelling a free span makes no neighbour mergeable. */
    static lemma RelabelDone(aggressive: bool, spans: map<SpanId, Span>, id: SpanId, loc: Location)
      requires id in spans && Free(spans[id]) && loc != InUse
      ensures aggressive && LeftDone(aggressive, spans, id) ==>
                LeftDone(aggressive, spans[id := spans[id].(location := loc)], id)
      ensures aggressive && RightDone(aggressive, spans, id) ==>
                RightDone(aggressive, spans[id := spans[id].(location := loc)], id)
    {
    }

    /** A listed span has nothing to merge with. */
    lemma DonesHere(id: SpanId)
      requires Sound({}) && id in spans
      ensures LeftDone(aggressive, spans, id) && RightDone(aggressive, spans, id)
    {
    }

    lemma SpanLengths(id: SpanId)
      requires Sound({}) && id in spans
      ensures 0 < spans[id].length
    {
    }

    /** Without free bytes every free span is decommitted. */
    lemma AllReturned()
      requires Sound({}) && freeBytes == 0
      ensures forall x :: x in spans && Free(spans[x]) ==> spans[x].location == Returned
    {
      hide PageCount.Recorded, NoDup, PagesOn;
      PagesOnZero(spans, normal, |normal|);
    }

    /** A non-empty normal list means free bytes. */
    lemma SomethingNormal(c: nat)
      requires Sound({}) && c <= MAX_PAGES && |normal| == MAX_PAGES + 1 && normal[c] != []
      ensures 0 < freeBytes
    {
      hide PageCount.Recorded, NoDup, PagesOn;
      PagesOnZero(spans, normal, |normal|);
    }

    /** With every normal list empty, free_bytes is zero. */
    lemma NothingNormal()
      requires Sound({}) && forall c :: 0 <= c < |normal| ==> normal[c] == []
      ensures freeBytes == 0
    {
      hide PageCount.Recorded, NoDup, PagesOn;
      PagesOnZero(spans, normal, |normal|);
    }

    ghost function Now(): Snap
      reads this
    {
      Snap(spans, owner, normal, freeBytes, unmappedBytes, tries, lost)
    }

    /** One turn of the pass: the last span of a list, if there is one. */
    method ReleaseFrom(c: nat) returns (length: nat, refused: bool)
      requires Valid() && c <= MAX_PAGES && |normal| == MAX_PAGES + 1
      modifies this`spans, this`owner, this`pagemap, this`normal, this`returned,
               this`freeBytes, this`unmappedBytes, this`committedBytes, this`tries, this`lost
      ensures Valid() && Moved(aggressive, releases, old(Now()), Now(), length)
      ensures if refused then length == 0 && Refused(releases, old(tries), tries) else Even(aggressive, old(Now()), Now())
      ensures !refused && length == 0 ==> normal == old(normal) && normal[c] == []
    {
      hide Sound, OneSided, Moved, Balanced;
      length, refused := 0, false;
      if normal[c] == [] {
        KeepsSelf();
        MovedNot(aggressive, releases, Now());
        return;
      }
      length := ReleaseLastNormalSpan(c);
      refused := length == 0;
      if refused {
        RefusedHere(releases, old(tries), old(tries), tries);
      }
    }

    /** One pass over all lists, releasing the last span of each until enough is released. */
    method ReleaseRound(num: nat, before: nat) returns (released: nat, refused: bool)
      requires Valid() && before < num && 0 < freeBytes
      modifies this`spans, this`owner, this`pagemap, this`normal, this`returned,
               this`freeBytes, this`unmappedBytes, this`committedBytes, this`releaseIndex, this`tries, this`lost
      ensures Valid() && before <= released && Moved(aggressive, releases, old(Now()), Now(), released - before)
      ensures if refused then Refused(releases, old(tries), tries) else freeBytes < old(freeBytes)
      ensures !refused ==> Even(aggressive, old(Now()), Now())
    {
      hide Sound, OneSided, Refused, Moved, Even, Visited;
      released, refused := before, false;
      KeepsSelf();
      MovedNot(aggressive, releases, Now());
      ghost var u := if MAX_PAGES < releaseIndex then 0 else releaseIndex;
      VisitNext(normal, u, 0);
      var i := 0;
      while i < MAX_PAGES + 1 && released < num
        invariant Valid() && 0 <= i <= MAX_PAGES + 1 && before <= released && |normal| == MAX_PAGES + 1
        invariant Moved(aggressive, releases, old(Now()), Now(), released - before) && Even(aggressive, old(Now()), Now())
        invariant (if MAX_PAGES < releaseIndex then 0 else releaseIndex) == (if i <= MAX_PAGES then Slot(u, i) else u)
        invariant released == before ==> Visited(normal, u, i)
      {
        if MAX_PAGES < releaseIndex {
          releaseIndex := 0;
        }
        var c := releaseIndex;
        ghost var now := Now();
        var length;
        length, refused := ReleaseFrom(c);
        MovedMore(aggressive, releases, old(Now()), now, Now(), released - before, length);
        KeepsSelf();
        if refused {
          RefusedWithin(releases, old(tries), now.tries, tries, tries);
          return;
        }
        VisitNext(normal, u, i);
        released := released + length;
        i := i + 1;
        releaseIndex := releaseIndex + 1;
      }
      if released == before {
        RoundVisitsAll(normal, u);
        NothingNormal();
      } else {
        MovedLess(aggressive, releases, old(Now()), Now(), released - before);
      }
    }

    lemma KeepsSelf()
      requires Sound({})
      ensures Keeps(spans, owner, spans, owner) && |normal| == MAX_PAGES + 1 && |returned| == MAX_PAGES + 1
    {
      KeepsRefl(spans, owner);
    }

    /**
     * Release at least num pages. It falls short only when nothing normal is left or the system
     * has refused a release, and what it reports is exactly what moved from free to unmapped.
     */
    method ReleaseAtLeastNPages(num: nat) returns (released: nat)
      requires Valid()
      modifies this`spans, this`owner, this`pagemap, this`normal, this`returned,
               this`freeBytes, this`unmappedBytes, this`committedBytes, this`releaseIndex, this`tries, this`lost
      ensures Valid() && Moved(aggressive, releases, old(Now()), Now(), released)
      ensures num <= released || freeBytes == 0 || Refused(releases, old(tries), tries)
      ensures old(freeBytes) == 0 ==> tries == old(tries) && lost == old(lost)
    {
      hide Sound, OneSided, Refused, Moved;
      released := 0;
      KeepsSelf();
      MovedNot(aggressive, releases, Now());
      NothingNegative({});
      while released < num && 0 < freeBytes
        invariant Valid() && 0 <= freeBytes
        invariant Moved(aggressive, releases, old(Now()), Now(), released) && Even(aggressive, old(Now()), Now())
        invariant old(freeBytes) == 0 ==> tries == old(tries) && lost == old(lost) && freeBytes == 0
        decreases freeBytes
      {
        ghost var now, before := Now(), released;
        var refused;
        released, refused := ReleaseRound(num, released);
        MovedMore(aggressive, releases, old(Now()), now, Now(), before, released - before);
        NothingNegative({});
        if refused {
          RefusedWithin(releases, old(tries), now.tries, tries, tries);
          return;
        }
      }
    }

    static const DEFAULT_DELAY: nat := 262144
    static const MAX_DELAY: nat := 1048576

    /** How many pages may be freed until the next release, after one of this many pages: 1000 / rate for each, within bounds. */
    static function Delay(rate: real, released: nat): (d: nat)
      requires 0.000001 < rate
      ensures released == 0 ==> d == DEFAULT_DELAY
      ensures 0 < released ==> d <= MAX_DELAY && d as real * rate <= 1000.0 * released as real
      ensures 0 < released ==> d == MAX_DELAY || 1000.0 * released as real < (d + 1) as real * rate
    {
      if released == 0 then DEFAULT_DELAY else
        var wait := 1000.0 * released as real / rate;
        assert wait * rate == 1000.0 * released as real;
        if MAX_DELAY as real < wait then
          BelowTimes(MAX_DELAY as real, wait, rate);
          MAX_DELAY
        else
          assert wait.Floor as real <= wait < (wait.Floor + 1) as real;
          BelowTimes(wait.Floor as real, wait, rate);
          BelowTimes(wait, (wait.Floor + 1) as real, rate);
          assert 1000.0 * released as real < (wait.Floor + 1) as real * rate;
          wait.Floor
    }

    static lemma BelowTimes(a: real, b: real, rate: real)
      requires a <= b && 0.0 < rate
      ensures a * rate <= b * rate && (a < b ==> a * rate < b * rate)
    {
    }

    /** Nothing on the lists or in the books has changed. */
    ghost predicate SameBooks(at: Attempt, books: Ledger, tries0: nat, lost0: nat)
      reads `spans, `owner, `normal, `returned, `systemBytes, `freeBytes, `unmappedBytes, `committedBytes, `tries, `lost
    {
      Here() == at && Books() == books && tries == tries0 && lost == lost0
    }

    /**
     * Release something every so often: when as many pages have been freed as the last wait said,
     * at least one page is released if any can be, and the next wait is set.
     */
    method IncrementalScavenge(n: nat)
      requires Valid()
      modifies this`spans, this`owner, this`pagemap, this`normal, this`returned, this`freeBytes, this`unmappedBytes,
               this`committedBytes, this`releaseIndex, this`scavengeCounter, this`tries, this`lost
      ensures Valid() && Keeps(old(spans), old(owner), spans, owner)
      ensures old(tries) <= tries && old(lost) <= lost && freeBytes <= old(freeBytes)
      ensures old(freeBytes) == 0 ==> tries == old(tries) && lost == old(lost)
      ensures lost == old(lost) <==> !(aggressive && Doubled(releases, old(tries), tries))
      ensures aggressive && freeBytes < old(freeBytes) ==> old(tries) + 2 <= tries && releases(old(tries))
      ensures n <= old(scavengeCounter) ==> scavengeCounter == old(scavengeCounter) - n
      ensures old(scavengeCounter) < n && rate <= 0.000001 ==> scavengeCounter == DEFAULT_DELAY
      ensures n <= old(scavengeCounter) || rate <= 0.000001 ==> SameBooks(old(Here()), old(Books()), old(tries), old(lost))
      ensures old(scavengeCounter) < n && 0.000001 < rate ==>
                && (freeBytes < old(freeBytes) || freeBytes == 0 || Refused(releases, old(tries), tries))
                && scavengeCounter == Delay(rate, (old(freeBytes) - freeBytes) / PAGE)
    {
      hide SpansOk, ListsOk, Keeps, TotalPages, PageCount.Recorded, OneSided, Refused, Delay;
      KeepsSelf();
      NothingNegative({});
      scavengeCounter := scavengeCounter - n;
      if 0 <= scavengeCounter {
        return;
      }
      if rate <= 0.000001 {
        scavengeCounter := DEFAULT_DELAY;
        return;
      }
      var released := ReleaseAtLeastNPages(1);
      scavengeCounter := Delay(rate, released);
    }

    /** Pages taken from the system and not given back. */
    ghost function TakenPages(): int
      reads `systemTaken, `unmappedBytes
    {
      systemTaken / PAGE - unmappedBytes / PAGE
    }

    ghost predicate LimitOk(n: nat)
      reads `systemTaken, `unmappedBytes
    {
      limit == 0 || TakenPages() + n <= limit
    }

    /**
     * Whether n more pages may be taken, after releasing what is needed if that is allowed: then
     * it is no only if nothing is left to release or the system has refused a release.
     */
    method EnsureLimit(n: nat, withRelease: bool) returns (ok: bool)
      requires Valid()
      modifies this`spans, this`owner, this`pagemap, this`normal, this`returned,
               this`freeBytes, this`unmappedBytes, this`committedBytes, this`releaseIndex, this`tries, this`lost
      ensures Valid() && Keeps(old(spans), old(owner), spans, owner)
      ensures ok <==> LimitOk(n)
      ensures withRelease && !ok ==> freeBytes == 0 || Refused(releases, old(tries), tries)
      ensures !withRelease || old(LimitOk(n)) ==>
                && spans == old(spans) && owner == old(owner) && normal == old(normal) && returned == old(returned)
                && Books() == old(Books()) && tries == old(tries) && lost == old(lost)
      ensures freeBytes + unmappedBytes == old(freeBytes + unmappedBytes) && 0 <= freeBytes <= old(freeBytes)
      ensures old(tries) <= tries && old(lost) <= lost && NoNewNormal(old(normal), normal)
      ensures lost == old(lost) <==> !(aggressive && Doubled(releases, old(tries), tries))
    {
      hide SpansOk, ListsOk, Keeps, TotalPages, PageCount.Recorded, OneSided, Refused;
      KeepsSelf();
      NothingNegative({});
      if limit == 0 {
        return true;
      }
      var takenPages := systemTaken / PAGE - unmappedBytes / PAGE;
      if limit < takenPages + n && withRelease {
        var released := ReleaseAtLeastNPages(takenPages + n - limit);
        NothingNegative({});
        UnmappedInPages(old(unmappedBytes), released);
        takenPages := takenPages - released;
      }
      ok := takenPages + n <= limit;
    }

    static lemma UnmappedInPages(bytes: int, pages: nat)
      ensures (bytes + PAGE * pages) / PAGE == bytes / PAGE + pages
    {
    }

    // -------------------------------------------------------------- Delete

    /**
     * Return a span: its pages become free, every other span in use is untouched, and the free
     * memory around it is merged. In aggressive mode a refused release loses the decommitted
     * bytes next to the span; with those the ledger stays as it was exactly if there are none, or
     * the release works, and the scavenging that follows decommits nothing twice.
     */
    method Delete(id: SpanId)
      requires Valid() && id in spans && spans[id].location == InUse
      modifies this`spans, this`owner, this`pagemap, this`normal, this`returned, this`freeBytes, this`unmappedBytes,
               this`committedBytes, this`releaseIndex, this`scavengeCounter, this`tries, this`lost
      ensures Valid()
      ensures Keeps(old(spans)[id := Freed(old(spans[id]))], old(owner), spans, owner)
      ensures old(tries) <= tries
      ensures old(lost) + (if aggressive && !releases(old(tries)) then old(ReturnedAround(spans, owner, id)) else 0) <= lost
      ensures lost == old(lost) <==>
                !aggressive || ((releases(old(tries)) || old(ReturnedAround(spans, owner, id)) == 0) &&
                                !Doubled(releases, old(tries) + 1, tries))
      ensures aggressive && old(freeBytes) == 0 && releases(old(tries)) ==>
                freeBytes == 0 && tries == old(tries) + 1 && lost == old(lost)
      ensures aggressive && !releases(old(tries)) && releases(old(tries) + 2) ==> 0 < freeBytes || old(lost) < lost
    {
      hide Sound, Keeps, Beside, OneSided;
      var n := spans[id].length;
      ghost var spans0, owner0 := spans[id := Freed(spans[id])], owner;
      FreeSpan(id);
      ghost var spans1, owner1 := spans, owner;
      IncrementalScavenge(n);
      NothingNegative({});
      KeepsTrans(spans0, owner0, spans1, owner1, spans, owner);
    }

    /** Delete up to the scavenging; the bytes lost are known exactly. */
    method FreeSpan(id: SpanId)
      requires Valid() && id in spans && spans[id].location == InUse
      modifies this`spans, this`owner, this`pagemap, this`normal, this`returned, this`freeBytes, this`unmappedBytes,
               this`committedBytes, this`tries, this`lost
      ensures Valid() && Keeps(old(spans)[id := Freed(old(spans[id]))], old(owner), spans, owner)
      ensures tries == old(tries) + if aggressive then 1 else 0
      ensures lost ==
                old(lost) + (if aggressive && !releases(old(tries)) then old(ReturnedAround(spans, owner, id)) else 0)
      ensures aggressive && releases(old(tries)) && old(freeBytes) == 0 ==> freeBytes == 0
      ensures aggressive && !releases(old(tries)) ==> 0 < freeBytes
    {
      hide Sound, Keeps, BytesOf, LengthOf, Beside;
      SpanLengths(id);
      FreedBeside(id);
      MarkFree(id);
      ghost var books, s, t0 := Books(), spans[id], tries;
      var prev, next := MergeIntoFreeList(id);
      MergeDeficit(aggressive, releases(t0), books, s, prev, next);
      AllMore(releases, t0, tries);
      NothingNegative({});
      if aggressive && !releases(t0) {
        lost := lost + Temp(aggressive, prev, next);
      }
    }

    /** The span counts as free but is on no list yet. */
    method MarkFree(id: SpanId)
      requires Sound({}) && id in spans && spans[id].location == InUse
      modifies this`spans
      ensures Sound({id}) && spans == old(spans)[id := Freed(old(spans[id]))]
    {
      hide SpansOk, ListsOk, TotalPages, PageCount.Recorded;
      FreeOk(aggressive, spans, owner, pagemap, nextId, normal, returned, id);
      spans := spans[id := Freed(spans[id])];
    }

    /** Freeing a span changes nothing about its neighbours. */
    lemma FreedBeside(id: SpanId)
      requires Sound({}) && id in spans && spans[id].location == InUse
      ensures ReturnedAround(spans[id := Freed(spans[id])], owner, id) == ReturnedAround(spans, owner, id)
    {
      hide PageCount.Recorded, TotalPages, ListsOk, Mapped, Coalesced, Unregistered;
      assert !Covers(spans[id], spans[id].start - 1) && !Covers(spans[id], End(spans[id]));
    }

    // -------------------------------------------------------------- Carve

    /**
     * Take exactly n pages off the front of a free span, put the rest back on the list of its
     * kind without coalescing, and recommit what was returned.
     */
    method Carve(id: SpanId, n: nat)
      requires Valid() && id in spans && Free(spans[id]) && 0 < n <= spans[id].length
      modifies this`spans, this`owner, this`pagemap, this`normal, this`returned, this`freeBytes, this`unmappedBytes,
               this`committedBytes, this`nextId
      ensures Valid() && Takes(old(spans), old(owner), spans, owner, id, n)
      ensures id in spans && spans[id].start == old(spans[id]).start && freeBytes <= old(freeBytes)
    {
      hide Sound, Takes, OneSidedAt;
      var whole := spans[id];
      if whole.length == n {
        CarveWhole(id);
      } else {
        CarveFront(id, n);
      }
      if whole.location == Returned {
        committedBytes := committedBytes + PAGE * n;
      }
      NothingNegative({});
      OneSidedLess(aggressive, releases, old(Now()), Now());
    }

    /** Taking memory off the lists keeps them one-sided. */
    static lemma OneSidedLess(aggressive: bool, f: nat -> bool, a: Snap, b: Snap)
      requires OneSidedAt(aggressive, f, a.free, a.unmapped, a.tries, a.lost) && b.tries == a.tries && b.lost == a.lost
      requires 0 <= b.free <= a.free && 0 <= b.unmapped <= a.unmapped
      ensures OneSidedAt(aggressive, f, b.free, b.unmapped, b.tries, b.lost)
    {
    }

    method CarveWhole(id: SpanId)
      requires Sound({}) && id in spans && Free(spans[id]) && 0 < spans[id].length
      modifies this`spans, this`normal, this`returned, this`freeBytes, this`unmappedBytes
      ensures Sound({}) && Takes(old(spans), old(owner), spans, owner, id, old(spans[id]).length)
      ensures id in spans && spans[id].start == old(spans[id]).start
      ensures freeBytes == old(freeBytes) - (if old(spans[id]).location == Normal then PAGE * old(spans[id]).length else 0)
      ensures unmappedBytes ==
                old(unmappedBytes) - (if old(spans[id]).location == Returned then PAGE * old(spans[id]).length else 0)
    {
      hide SpansOk, ListsOk, Takes, TotalPages, PageCount.Recorded;
      var whole := spans[id];
      TakeWholeOk(aggressive, spans, owner, pagemap, nextId, id);
      RemoveFromFreeList(id, {});
      assert {} + {id} == {id};
      TakeWholeLists(spans, normal, returned, id, Front(whole, whole.length));
      spans := spans[id := Front(whole, whole.length)];
    }

    method CarveFront(id: SpanId, n: nat)
      requires Sound({}) && id in spans && Free(spans[id]) && 0 < n < spans[id].length
      modifies this`spans, this`owner, this`pagemap, this`normal, this`returned, this`freeBytes, this`unmappedBytes,
               this`nextId
      ensures Sound({}) && Takes(old(spans), old(owner), spans, owner, id, n)
      ensures id in spans && spans[id].start == old(spans[id]).start
      ensures freeBytes == old(freeBytes) - (if old(spans[id]).location == Normal then PAGE * n else 0)
      ensures unmappedBytes == old(unmappedBytes) - (if old(spans[id]).location == Returned then PAGE * n else 0)
    {
      hide SpansOk, ListsOk, Takes, TotalPages, PageCount.Recorded, Cut, CutMap;
      var whole := spans[id];
      var b := NewSpan();
      var sa, sb := Front(whole, n), Rest(whole, n);
      CarveOk(aggressive, spans, owner, pagemap, nextId, id, b, n);
      RemoveFromFreeList(id, {});
      assert {} + {id} == {id};
      CarveLists(spans, normal, returned, id, b, sa, sb);
      CutKeys(owner, id, b, whole.start + n);
      PageCount.SameCount(owner, Cut(owner, id, b, whole.start + n));
      pagemap := CutMap(pagemap, id, sa, b, sb);
      owner := Cut(owner, id, b, whole.start + n);
      spans := spans[id := sa][b := sb];
      FewerExceptions(aggressive, spans, owner, pagemap, nextId, {}, {b});
      assert {b} - {b} == {};
      PrependToFreeList(b, {b});
    }

    // -------------------------------------------------------------- Split and RegisterSizeClass

    /** Cut a span in use in two: it keeps its first n pages, a new span gets the rest. */
    method Split(id: SpanId, n: nat) returns (leftover: SpanId)
      requires Valid() && id in spans && spans[id].location == InUse && spans[id].sizeclass == 0
      requires 0 < n < spans[id].length
      modifies this`spans, this`owner, this`pagemap, this`nextId
      ensures Valid() && leftover !in old(spans)
      ensures spans == old(spans)[id := Front(old(spans[id]), n)][leftover := Rest(old(spans[id]), n)]
    {
      hide SpansOk, ListsOk, TotalPages, PageCount.Recorded, OneSided, Cut, CutMap;
      var whole := spans[id];
      leftover := NewSpan();
      var sa, sb := Front(whole, n), Rest(whole, n);
      SplitOk(aggressive, spans, owner, pagemap, nextId, id, leftover, n);
      SplitLists(spans, normal, returned, id, leftover, sa, sb);
      CutKeys(owner, id, leftover, whole.start + n);
      PageCount.SameCount(owner, Cut(owner, id, leftover, whole.start + n));
      pagemap := CutMap(pagemap, id, sa, leftover, sb);
      owner := Cut(owner, id, leftover, whole.start + n);
      spans := spans[id := sa][leftover := sb];
    }

    /** Give a span in use a size class: the page map then names it on every one of its pages. */
    method RegisterSizeClass(id: SpanId, sizeclass: nat)
      requires Valid() && id in spans && spans[id].location == InUse
      modifies this`spans, this`pagemap
      ensures Valid() && spans == old(spans)[id := old(spans[id]).(sizeclass := sizeclass)]
      ensures forall p: nat :: Covers(spans[id], p) ==> p in pagemap && pagemap[p] == id
    {
      hide SpansOk, ListsOk, TotalPages, PageCount.Recorded;
      var s := spans[id];
      SpanIsMapped(id);
      ghost var pagemap0 := pagemap;
      pagemap := FillInterior(pagemap, id, s);
      RegisterOk(aggressive, spans, owner, pagemap0, pagemap, nextId, id, sizeclass);
      RegisterLists(spans, normal, returned, id, sizeclass);
      spans := spans[id := s.(sizeclass := sizeclass)];
      forall p: nat | Covers(spans[id], p) ensures p in pagemap && pagemap[p] == id {
        assert Covers(s, p);
      }
    }

    lemma SpanIsMapped(id: SpanId)
      requires Sound({}) && id in spans
      ensures MappedAt(pagemap, id, spans[id])
    {
    }

    // -------------------------------------------------------------- searching

    /** Listed spans are live, free and of the length of their list. */
    lemma ListedIs(c: nat, id: SpanId)
      requires Sound({}) && c <= MAX_PAGES
      ensures |normal| == MAX_PAGES + 1 && |returned| == MAX_PAGES + 1
      ensures id in normal[c] || id in returned[c] ==> id in spans && Free(spans[id]) && Cls(spans[id].length) == c
      ensures id in normal[c] ==> spans[id].location == Normal
      ensures id in returned[c] ==> spans[id].location == Returned
    {
      hide SpansOk, TotalPages, PageCount.Recorded, NoDup;
    }

    /** The best fit over both large lists: no span of at least n pages beats it. */
    method BestFit(n: nat) returns (best: Option<SpanId>, isNormal: bool)
      requires Valid()
      ensures |normal| == MAX_PAGES + 1 && |returned| == MAX_PAGES + 1
      ensures IsBest(spans, normal[MAX_PAGES] + returned[MAX_PAGES], n, best)
      ensures best.Some? ==> best.value in spans && Free(spans[best.value]) && n <= spans[best.value].length
      ensures best.Some? ==> (isNormal <==> spans[best.value].location == Normal)
    {
      hide SpansOk, ListsOk, TotalPages, PageCount.Recorded;
      KeepsSelf();
      forall x
        ensures x in normal[MAX_PAGES] ==> x in spans && spans[x].location == Normal
        ensures x in returned[MAX_PAGES] ==> x in spans && spans[x].location == Returned
      {
        ListedIs(MAX_PAGES, x);
      }
      assert [] + normal[MAX_PAGES] == normal[MAX_PAGES];
      var bestNormal := ScanList(spans, [], normal[MAX_PAGES], n, None);
      best := ScanList(spans, normal[MAX_PAGES], returned[MAX_PAGES], n, bestNormal);
      isNormal := best == bestNormal;
    }

    /** The two large lists. */
    ghost function Large(): seq<SpanId>
      reads `spans, `owner, `normal, `returned
    {
      LargeOf(Here())
    }

    ghost function Here(): Attempt
      reads `spans, `owner, `normal, `returned
    {
      Attempt(spans, owner, normal, returned)
    }

    lemma LargeHasAll()
      requires Sound({}) && |normal| == MAX_PAGES + 1 && |returned| == MAX_PAGES + 1
      ensures AllLarge(Here())
    {
      hide SpansOk, TotalPages, PageCount.Recorded;
      forall x | x in spans && Free(spans[x]) && MAX_PAGES <= spans[x].length ensures x in Large() {
        assert x in normal[MAX_PAGES] || x in returned[MAX_PAGES];
      }
    }

    /**
     * Allocate from the large lists by best fit. Under a heap limit it may release memory and
     * try once more: the retry finds the limit already met, so there is no third attempt. The
     * span taken is the best of all large free spans at the attempt that took it, which `at` records;
     * without a limit that is the first. A normal span that is best at once is taken whatever the
     * limit. It fails only if no large span has n pages or the limit
     * cannot be met.
     */
    method AllocLarge(n: nat) returns (r: Option<SpanId>, ghost at: Attempt)
      requires Valid() && 0 < n
      modifies this`spans, this`owner, this`pagemap, this`normal, this`returned, this`freeBytes, this`unmappedBytes,
               this`committedBytes, this`releaseIndex, this`nextId, this`tries, this`lost
      ensures |normal| == MAX_PAGES + 1 && |returned| == MAX_PAGES + 1
      ensures |old(normal)| == MAX_PAGES + 1 && |old(returned)| == MAX_PAGES + 1
      ensures Valid() && Outcome(old(spans), old(owner), spans, owner, r, n)
      ensures r.Some? ==>
                && ListsOk(at.spans, at.normal, at.returned, {})
                && AllLarge(at) && IsBest(at.spans, LargeOf(at), n, r) && Takes(at.spans, at.owner, spans, owner, r.value, n)
                && Keeps(old(spans), old(owner), at.spans, at.owner)
                && r.value in at.spans && r.value in spans && spans[r.value].start == at.spans[r.value].start
                && |at.normal| == MAX_PAGES + 1 && |at.returned| == MAX_PAGES + 1
      ensures old(LimitOk(n)) ==> at == old(Here())
      ensures forall b :: IsBest(old(spans), old(Large()), n, Some(b)) && old(spans)[b].location == Normal ==>
                r == Some(b) && at == old(Here())
      ensures limit == 0 ==> IsBest(old(spans), old(Large()), n, r)
      ensures r.None? ==> !LimitOk(n) || IsBest(spans, Large(), n, None)
      ensures r.None? && limit == 0 ==> SameBooks(old(Here()), old(Books()), old(tries), old(lost))
      ensures r.None? ==> freeBytes + unmappedBytes == old(freeBytes + unmappedBytes)
      ensures freeBytes <= old(freeBytes) && old(tries) <= tries && old(lost) <= lost
      ensures limit == 0 ==> tries == old(tries) && lost == old(lost)
      decreases if LimitOk(n) then 0 else 1
    {
      hide SpansOk, ListsOk, Keeps, Takes, TotalPages, Tiles, IsBest, PageCount.Recorded, OneSided, Refused, NoNewNormal;
      KeepsSelf();
      TilesNow();
      var best, isNormal := BestFit(n);
      at := Here();
      ListsNow();
      BestOnlyOne(spans, owner, Large(), n, best);
      LargeHasAll();
      hide AllLarge;
      if best.None? {
        return None, at;
      }
      if isNormal {
        Carve(best.value, n);
        KeepsSelf();
        return best, at;
      }
      var ok := EnsureLimit(n, false);
      if ok {
        Carve(best.value, n);
        KeepsSelf();
        return best, at;
      }
      ok := EnsureLimit(n, true);
      if ok {
        ghost var spans1, owner1 := spans, owner;
        TilesNow();
        r, at := AllocLarge(n);
        Compose(old(spans), old(owner), spans1, owner1, spans, owner, r, n);
        KeepsSelf();
        if r.Some? {
          KeepsTrans(old(spans), old(owner), spans1, owner1, at.spans, at.owner);
        }
        return;
      }
      KeepsSelf();
      r := None;
    }

    lemma TilesNow()
      requires Sound({})
      ensures Tiles(spans, owner)
    {
    }

    /** The front of the first non-empty exact list is a shortest fit. */
    lemma FirstIsShortest(n: nat, s: nat, id: SpanId)
      requires Sound({}) && |normal| == MAX_PAGES + 1 && |returned| == MAX_PAGES + 1 && n <= s < MAX_PAGES
      requires EmptyFrom(normal, returned, n, s) && (id in normal[s] || id in returned[s])
      ensures Shortest(spans, id, n)
    {
      hide SpansOk, TotalPages, PageCount.Recorded, NoDup;
      forall x | x in spans && Free(spans[x]) && n <= spans[x].length ensures spans[id].length <= spans[x].length {
        var c := Cls(spans[x].length);
        assert x in normal[c] || x in returned[c];
      }
    }

    /** A page that lies in a free span of at least n pages. */
    ghost predicate FreeRunAt(p: nat, n: nat)
      reads `spans, `owner
    {
      Run(spans, owner, p, n)
    }

    /** The limit cannot be met: nothing is left to release, or the system has refused a release. */
    ghost predicate GaveUp(n: nat, since: nat)
      reads `freeBytes, `unmappedBytes, `systemTaken, `tries
    {
      (freeBytes == 0 && !LimitOk(n)) || Refused(releases, since, tries)
    }

    /** Both exact lists of length s are empty, so runs of that length are longer. */
    lemma RunsGrow(s0: map<SpanId, Span>, o0: map<nat, SpanId>, n: nat, s: nat)
      requires Sound({}) && s < MAX_PAGES && |normal| == MAX_PAGES + 1 && |returned| == MAX_PAGES + 1
      requires normal[s] == [] && returned[s] == [] && RunsKept(s0, o0, n, spans, owner, s)
      ensures RunsKept(s0, o0, n, spans, owner, s + 1)
    {
      forall p: nat | Run(s0, o0, p, n) ensures Run(spans, owner, p, s + 1) {
        var x := owner[p];
        assert Run(spans, owner, p, s);
        assert x in normal[Cls(spans[x].length)] || x in returned[Cls(spans[x].length)];
      }
    }

    /** EnsureLimit in the search, and what it means for the free runs there were at the start. */
    method LimitFor(n: nat, s: nat, ghost s0: map<SpanId, Span>, ghost o0: map<nat, SpanId>, ghost since: nat)
      returns (ok: bool)
      requires Valid() && s < MAX_PAGES && |normal| == MAX_PAGES + 1 && |returned| == MAX_PAGES + 1
      requires normal[s] == [] && since <= tries && Keeps(s0, o0, spans, owner)
      requires GaveUp(n, since) || RunsKept(s0, o0, n, spans, owner, s)
      modifies this`spans, this`owner, this`pagemap, this`normal, this`returned,
               this`freeBytes, this`unmappedBytes, this`committedBytes, this`releaseIndex, this`tries, this`lost
      ensures Valid() && |normal| == MAX_PAGES + 1 && |returned| == MAX_PAGES + 1 && Keeps(s0, o0, spans, owner)
      ensures normal[s] == []
      ensures (ok && returned[s] != []) || GaveUp(n, since) || RunsKept(s0, o0, n, spans, owner, s + 1)
      ensures limit == 0 ==>
                ok && SameBooks(old(Here()), old(Books()), old(tries), old(lost))
      ensures freeBytes <= old(freeBytes) && old(tries) <= tries && old(lost) <= lost
    {
      hide SpansOk, ListsOk, Keeps, TotalPages, PageCount.Recorded, OneSided, Refused, RunsKept;
      ghost var spans1, owner1, t1 := spans, owner, tries;
      ok := EnsureLimit(n, true);
      KeepsTrans(s0, o0, spans1, owner1, spans, owner);
      KeepsSelf();
      if Refused(releases, since, t1) {
        RefusedWithin(releases, since, since, t1, tries);
      } else if Refused(releases, t1, tries) {
        RefusedWithin(releases, since, t1, tries, tries);
      } else if ok && returned[s] == [] && RunsKept(s0, o0, n, spans1, owner1, s) {
        RunsStay(s0, o0, n, spans1, owner1, s, spans, owner);
        RunsGrow(s0, o0, n, s);
      }
    }

    /**
     * Try the exact lists from n pages up, normal before returned, then the large lists. With
     * something long enough to start with it fails only if the limit cannot be met or the system
     * has refused a release, so never without a limit; without a limit it takes a shortest fit. At
     * the attempt that takes a span, which `at` records, it is the first normal one of its length,
     * or the first returned one if no normal one has its length. The first normal span of the first
     * length that has any free span is taken whatever the limit.
     */
    method SearchFreeAndLargeLists(n: nat) returns (r: Option<SpanId>, ghost at: Attempt)
      requires Valid() && 0 < n
      modifies this`spans, this`owner, this`pagemap, this`normal, this`returned, this`freeBytes, this`unmappedBytes,
               this`committedBytes, this`releaseIndex, this`nextId, this`tries, this`lost
      ensures Valid() && Outcome(old(spans), old(owner), spans, owner, r, n)
      ensures r.Some? ==> TakenAt(at, n, r.value, spans, owner) && Keeps(old(spans), old(owner), at.spans, at.owner)
      ensures limit == 0 ==> at == old(Here())
      ensures AtOnce(old(Here()), n, r, at)
      ensures r.None? ==> NoneFit(old(spans), n) || !LimitOk(n) || Refused(releases, old(tries), tries)
      ensures limit == 0 && r.Some? ==> Shortest(old(spans), r.value, n)
      ensures r.None? && limit == 0 ==> SameBooks(old(Here()), old(Books()), old(tries), old(lost)) && NoneFit(spans, n)
      ensures freeBytes <= old(freeBytes) && old(tries) <= tries && old(lost) <= lost
      ensures limit == 0 ==> tries == old(tries) && lost == old(lost)
    {
      hide SpansOk, ListsOk, Keeps, Takes, TotalPages, Tiles, IsBest, PageCount.Recorded, OneSided, Refused, Shortest,
           RunsKept, GaveUp, NoneFit, Picked, NoneBefore, AtOnce, NoNormalAtOnce, TakenAt;
      NoneYet(Here(), n);
      KeepsSelf();
      TilesNow();
      RunsSame(spans, owner, n);
      at := Here();
      var s := n;
      while s < MAX_PAGES
        invariant Valid() && n <= s && |normal| == MAX_PAGES + 1 && |returned| == MAX_PAGES + 1
        invariant Keeps(old(spans), old(owner), spans, owner)
        invariant limit == 0 || NoneBefore(old(Here()), n, s) ==>
                    SameBooks(old(Here()), old(Books()), old(tries), old(lost)) && at == old(Here())
        invariant limit == 0 ==> EmptyFrom(normal, returned, n, s)
        invariant NoNormalAtOnce(old(Here()), n, s)
        invariant freeBytes <= old(freeBytes) && old(tries) <= tries && old(lost) <= lost
        invariant GaveUp(n, old(tries)) || RunsKept(old(spans), old(owner), n, spans, owner, s)
      {
        if normal[s] != [] {
          if limit == 0 {
            FirstIsShortest(n, s, normal[s][0]);
          }
          OnceHere(old(Here()), n, s, Here(), normal[s][0]);
          r, at := TakeFirst(normal[s][0], s, n, old(spans), old(owner));
          return;
        }
        OnceLater(old(Here()), n, s);
        if returned[s] != [] {
          if limit == 0 {
            FirstIsShortest(n, s, returned[s][0]);
          }
          var ok := LimitFor(n, s, old(spans), old(owner), old(tries));
          if ok && returned[s] != [] {
            r, at := TakeFirst(returned[s][0], s, n, old(spans), old(owner));
            return;
          }
        } else if RunsKept(old(spans), old(owner), n, spans, owner, s) {
          RunsGrow(old(spans), old(owner), n, s);
        }
        s := s + 1;
      }
      OnceNever(old(Here()), n, s);
      r, at := LastChance(n, s, old(spans), old(owner), old(tries));
    }

    /** The end of the search: the large lists. */
    method LastChance(n: nat, ghost s: nat, ghost s0: map<SpanId, Span>, ghost o0: map<nat, SpanId>, ghost since: nat)
      returns (r: Option<SpanId>, ghost at: Attempt)
      requires Valid() && 0 < n <= s && MAX_PAGES <= s && |normal| == MAX_PAGES + 1 && |returned| == MAX_PAGES + 1
      requires since <= tries && Keeps(s0, o0, spans, owner) && Tiles(s0, o0)
      requires GaveUp(n, since) || RunsKept(s0, o0, n, spans, owner, s)
      requires limit == 0 ==> spans == s0 && owner == o0 && EmptyFrom(normal, returned, n, MAX_PAGES)
      modifies this`spans, this`owner, this`pagemap, this`normal, this`returned, this`freeBytes, this`unmappedBytes,
               this`committedBytes, this`releaseIndex, this`nextId, this`tries, this`lost
      ensures Valid() && Outcome(s0, o0, spans, owner, r, n)
      ensures r.Some? ==> TakenAt(at, n, r.value, spans, owner) && Keeps(s0, o0, at.spans, at.owner)
      ensures limit == 0 ==> at == old(Here())
      ensures r.None? ==> NoneFit(s0, n) || !LimitOk(n) || Refused(releases, since, tries)
      ensures limit == 0 && r.Some? ==> Shortest(s0, r.value, n)
      ensures r.None? && limit == 0 ==> SameBooks(old(Here()), old(Books()), old(tries), old(lost)) && NoneFit(s0, n)
      ensures freeBytes <= old(freeBytes) && old(tries) <= tries && old(lost) <= lost
      ensures limit == 0 ==> tries == old(tries) && lost == old(lost)
    {
      hide SpansOk, ListsOk, Keeps, Takes, TotalPages, Tiles, IsBest, PageCount.Recorded, OneSided, Refused, Shortest,
           RunsKept, NoneFit, EmptyFrom, Picked, AllLarge;
      ghost var spans1, owner1, t1, normal1, returned1 := spans, owner, tries, normal, returned;
      ListsNow();
      TilesNow();
      r, at := AllocLarge(n);
      Compose(s0, o0, spans1, owner1, spans, owner, r, n);
      if r.Some? {
        LargePicked(at, n, r.value);
        KeepsTrans(s0, o0, spans1, owner1, at.spans, at.owner);
        if limit == 0 {
          BestIsShortest(spans1, normal1, returned1, n, r.value);
        }
      } else if limit == 0 {
        EmptyListsNoneFit(spans1, normal1, returned1, n);
      } else if Refused(releases, since, t1) {
        RefusedWithin(releases, since, since, t1, tries);
      } else if LimitOk(n) {
        ListsNow();
        NoneMissed(s0, o0, n, s, spans1, owner1, spans, owner, normal, returned);
      }
    }

    lemma ListsNow()
      requires Sound({})
      ensures ListsOk(spans, normal, returned, {})
    {
    }

    /** Take the span that a search picks from the exact lists of length c. */
    method TakeFirst(id: SpanId, c: nat, n: nat, ghost s0: map<SpanId, Span>, ghost o0: map<nat, SpanId>)
      returns (r: Option<SpanId>, ghost at: Attempt)
      requires Valid() && n <= c < MAX_PAGES && 0 < n && |normal| == MAX_PAGES + 1 && |returned| == MAX_PAGES + 1
      requires if normal[c] != [] then id == normal[c][0] else returned[c] != [] && id == returned[c][0]
      requires Keeps(s0, o0, spans, owner) && Tiles(s0, o0)
      modifies this`spans, this`owner, this`pagemap, this`normal, this`returned, this`freeBytes, this`unmappedBytes,
               this`committedBytes, this`nextId
      ensures Valid() && r == Some(id) && at == old(Here()) && freeBytes <= old(freeBytes)
      ensures Outcome(s0, o0, spans, owner, r, n) && TakenAt(at, n, id, spans, owner)
    {
      hide Sound, OneSided, Keeps, Takes, Tiles, ListsOk, Picked;
      ghost var spans1, owner1 := spans, owner;
      at := Here();
      TilesNow();
      ListsNow();
      FirstPicked(at, n, c, id);
      assert id in normal[c] || id in returned[c];
      r := CarveFirst(id, c, n);
      Compose(s0, o0, spans1, owner1, spans, owner, r, n);
    }

    /** Carve the front span of a list. */
    method CarveFirst(id: SpanId, c: nat, n: nat) returns (r: Option<SpanId>)
      requires Valid() && c < MAX_PAGES && n <= c && 0 < n
      requires |normal| == MAX_PAGES + 1 && |returned| == MAX_PAGES + 1 && (id in normal[c] || id in returned[c])
      modifies this`spans, this`owner, this`pagemap, this`normal, this`returned, this`freeBytes, this`unmappedBytes,
               this`committedBytes, this`nextId
      ensures Valid() && r == Some(id) && Takes(old(spans), old(owner), spans, owner, id, n) && freeBytes <= old(freeBytes)
      ensures id in spans && id in old(spans) && spans[id].start == old(spans)[id].start
    {
      ListedIs(c, id);
      hide SpansOk, ListsOk, Takes, TotalPages, PageCount.Recorded;
      Carve(id, n);
      r := Some(id);
    }

    // -------------------------------------------------------------- growing

    /** The system may refuse; otherwise it hands out at least `ask` pages it had not handed out before. */
    method SystemAlloc(ask: nat) returns (region: Option<Span>)
      modifies this`systemTaken, this`asked
      ensures asked == old(asked) + 1 && (region.Some? <==> gives(old(asked)))
      ensures old(systemTaken) <= systemTaken && (region.None? ==> systemTaken == old(systemTaken))
      ensures region.Some? ==> Offered(spans, region.value, ask) && old(systemTaken) + PAGE * region.value.length <= systemTaken
    {
      region := None;
      asked := asked + 1;
      if gives(asked - 1) {
        var length: nat, overhead: nat := *, *;
        length := if length < ask then ask else length;
        ghost var bound := BeyondAll(spans, spans.Keys);
        assert Clear(spans, bound, length);
        var start: nat :| Clear(spans, start, length);
        region := Some(Span(start, length, InUse, 0));
        systemTaken := systemTaken + PAGE * length + overhead;
      }
    }

    /** Record a region as a span in use and delete it at once, so that it merges with its neighbours. */
    method AddRegion(s: Span, ghost n: nat)
      requires Valid() && 0 < n && Offered(spans, s, n)
      requires PAGE * (PageCount.Recorded(owner) + s.length) <= systemBytes
      modifies this`spans, this`owner, this`pagemap, this`normal, this`returned, this`freeBytes, this`unmappedBytes,
               this`committedBytes, this`releaseIndex, this`scavengeCounter, this`nextId, this`tries, this`lost
      ensures Valid() && SameUse(old(spans), spans) && FreeRunAt(s.start, n)
      ensures old(tries) <= tries && old(lost) <= lost
      ensures aggressive && old(freeBytes) == 0 && releases(old(tries)) ==>
                freeBytes == 0 && tries == old(tries) + 1 && lost == old(lost)
      ensures aggressive && !releases(old(tries)) && releases(old(tries) + 2) ==> 0 < freeBytes || old(lost) < lost
    {
      hide Sound, Keeps, SameUse, OneSided, Beside, Doubled;
      ghost var spans0 := spans;
      var id := RecordRegion(s);
      ghost var spans1, owner1 := spans, owner;
      Delete(id);
      AddedIsFree(spans0, spans1, owner1, spans, owner, id, s);
    }

    /** A span in use for the region, on the page map at both ends. */
    method RecordRegion(s: Span) returns (id: SpanId)
      requires Valid() && 0 < s.length && Offered(spans, s, s.length)
      requires PAGE * (PageCount.Recorded(owner) + s.length) <= systemBytes
      modifies this`spans, this`owner, this`pagemap, this`nextId
      ensures Valid() && id !in old(spans) && spans == old(spans)[id := s] && s.start in owner && owner[s.start] == id
    {
      hide Sound, PageCount.Recorded, OneSided, Offered;
      id := NewSpan();
      ClaimRegion(id, s);
    }

    method ClaimRegion(id: SpanId, s: Span)
      requires Sound({}) && id !in spans && id < nextId && 0 < s.length && Offered(spans, s, s.length)
      requires PAGE * (PageCount.Recorded(owner) + s.length) <= systemBytes
      modifies this`spans, this`owner, this`pagemap
      ensures Sound({}) && spans == old(spans)[id := s] && s.start in owner && owner[s.start] == id
    {
      hide SpansOk, ListsOk, TotalPages, Tiles, PageCount.Recorded, Record;
      ClaimOk(aggressive, spans, owner, pagemap, nextId, normal, returned, id, s);
      RegionIsFresh(s);
      PageCount.ClaimCount(owner, id, s);
      pagemap := Record(pagemap, id, s);
      owner := Claim(owner, id, s);
      spans := spans[id := s];
    }

    lemma RegionIsFresh(s: Span)
      requires Sound({}) && forall x :: x in spans ==> End(spans[x]) <= s.start || End(s) <= spans[x].start
      ensures forall p :: p in owner ==> !Covers(s, p)
    {
      forall p | p in owner ensures !Covers(s, p) {
        assert Covers(spans[owner[p]], p);
      }
    }

    static lemma AddedIsFree(spans0: map<SpanId, Span>, spans1: map<SpanId, Span>, owner1: map<nat, SpanId>,
                             spans2: map<SpanId, Span>, owner2: map<nat, SpanId>, id: SpanId, s: Span)
      requires id !in spans0 && spans1 == spans0[id := s] && s.location == InUse && 0 < s.length
      requires s.start in owner1 && owner1[s.start] == id
      requires Keeps(spans1[id := Freed(s)], owner1, spans2, owner2)
      ensures SameUse(spans0, spans2)
      ensures s.start in owner2 && owner2[s.start] in spans2 && Free(spans2[owner2[s.start]])
      ensures s.length <= spans2[owner2[s.start]].length
    {
      var freed := spans1[id := Freed(s)];
      assert Free(freed[owner1[s.start]]);
    }

    /** The pages asked for first. */
    static function FirstAsk(n: nat): (ask: nat)
      ensures n <= ask && MAX_PAGES <= ask && (ask == n || ask == MAX_PAGES)
    {
      if MAX_PAGES < n then n else MAX_PAGES
    }

    /** Without a limit: the system gives the first piece, or refuses it and gives the smaller one, and the page map gets its memory. */
    predicate Granted(asked: nat, n: nat) {
      if gives(asked) then gives(asked + 1) else n < MAX_PAGES && gives(asked + 1) && gives(asked + 2)
    }

    /**
     * Get at least n pages from the system, first a big piece and then just n. It fails only if n
     * is beyond all bounds, if the system or the page map got no memory, or if the limit cannot be
     * met.
     */
    method GrowHeap(n: nat) returns (ok: bool)
      requires Valid() && 0 < n
      modifies this
      ensures Valid() && SameUse(old(spans), spans)
      ensures ok ==> exists p: nat :: FreeRunAt(p, n)
      ensures !ok ==> MAX_VALID_PAGES < n || Refused(gives, old(asked), asked) || NoRoom(n, old(tries))
      ensures limit == 0 ==> (ok <==> n <= MAX_VALID_PAGES && Granted(old(asked), n))
      ensures limit == 0 && ok && gives(old(asked)) ==> exists p: nat :: FreeRunAt(p, FirstAsk(n))
      ensures old(asked) <= asked && old(tries) <= tries && old(lost) <= lost
      ensures ok && limit == 0 && aggressive && old(freeBytes) == 0 && releases(old(tries)) ==>
                freeBytes == 0 && tries == old(tries) + 1 && lost == old(lost)
      ensures ok && limit == 0 && aggressive && !releases(old(tries)) && releases(old(tries) + 2) ==>
                0 < freeBytes || old(lost) < lost
    {
      hide Sound, Keeps, SameUse, OneSided, Refused, FreeRunAt;
      ghost var spans0, owner0 := spans, owner;
      KeepsSelf();
      KeepsUse(spans, owner, spans, owner);
      if MAX_VALID_PAGES < n {
        return false;
      }
      var ask := FirstAsk(n);
      var region := Ask(ask);
      ghost var least := ask;
      if region.None? && n < ask {
        least := n;
        ghost var spans1, a1, t1 := spans, asked, tries;
        region := Ask(n);
        SameUseTrans(spans0, spans1, spans);
        if region.None? {
          NoneAsked(n, old(asked), old(tries), a1, t1);
        }
      }
      if region.None? {
        return false;
      }
      ghost var spans2, a2 := spans, asked;
      ok := Install(region.value, least);
      if ok {
        LongerRun(region.value.start, least, n);
        assert limit == 0 && gives(old(asked)) ==> least == FirstAsk(n) && FreeRunAt(region.value.start, FirstAsk(n));
      }
      SameUseTrans(spans0, spans2, spans);
      if !ok {
        RefusedWithin(gives, old(asked), a2, asked, asked);
      }
    }

    lemma LongerRun(p: nat, m: nat, n: nat)
      requires FreeRunAt(p, m) && n <= m
      ensures FreeRunAt(p, n)
    {
    }

    /** Enter a region in the books, and in the page map if that gets the memory it needs. */
    method Install(s: Span, ghost n: nat) returns (ok: bool)
      requires Valid() && 0 < n && Offered(spans, s, n) && systemBytes + PAGE * s.length <= systemTaken
      modifies this
      ensures Valid() && SameUse(old(spans), spans) && (ok ==> FreeRunAt(s.start, n))
      ensures !ok ==> Refused(gives, old(asked), asked)
      ensures ok <==> gives(old(asked))
      ensures old(asked) <= asked && old(tries) <= tries && old(lost) <= lost
      ensures ok && aggressive && old(freeBytes) == 0 && releases(old(tries)) ==>
                freeBytes == 0 && tries == old(tries) + 1 && lost == old(lost)
      ensures ok && aggressive && !releases(old(tries)) && releases(old(tries) + 2) ==> 0 < freeBytes || old(lost) < lost
    {
      hide Sound, Keeps, SameUse, PageCount.Recorded, OneSided, Refused, Offered, FreeRunAt;
      KeepsSelf();
      KeepsUse(spans, owner, spans, owner);
      EnterRegion(s);
      asked := asked + 1;
      if !gives(asked - 1) {
        RefusedHere(gives, old(asked), asked - 1, asked);
        return false;
      }
      AddRegion(s, n);
      ok := true;
    }

    /** The region counts as taken and committed before it is on the page map. */
    method EnterRegion(s: Span)
      requires Valid() && systemBytes + PAGE * s.length <= systemTaken
      modifies this`systemBytes, this`committedBytes
      ensures Valid() && PAGE * (PageCount.Recorded(owner) + s.length) <= systemBytes
    {
      hide SpansOk, ListsOk, TotalPages, PageCount.Recorded, OneSided;
      systemBytes := systemBytes + PAGE * s.length;
      committedBytes := committedBytes + PAGE * s.length;
    }

    /** The limit has no room for n pages, and releasing has come to an end. */
    ghost predicate NoRoom(n: nat, since: nat)
      reads `systemTaken, `unmappedBytes, `freeBytes, `tries
    {
      !LimitOk(n) && (freeBytes == 0 || Refused(releases, since, tries))
    }

    lemma NoneAsked(n: nat, asked0: nat, tries0: nat, asked1: nat, tries1: nat)
      requires asked0 <= asked1 <= asked && tries0 <= tries1 <= tries
      requires Refused(gives, asked1, asked) || NoRoom(n, tries1)
      ensures Refused(gives, asked0, asked) || NoRoom(n, tries0)
    {
      if Refused(gives, asked1, asked) {
        RefusedWithin(gives, asked0, asked1, asked, asked);
      } else if Refused(releases, tries1, tries) {
        RefusedWithin(releases, tries0, tries1, tries, tries);
      }
    }

    /** Ask the system for pages if the limit allows it; the region is not yet on the books. */
    method Ask(ask: nat) returns (region: Option<Span>)
      requires Valid()
      modifies this`spans, this`owner, this`pagemap, this`normal, this`returned, this`freeBytes, this`unmappedBytes,
               this`committedBytes, this`releaseIndex, this`tries, this`lost, this`systemTaken, this`asked
      ensures Valid() && SameUse(old(spans), spans)
      ensures region.Some? ==> Offered(spans, region.value, ask) && systemBytes + PAGE * region.value.length <= systemTaken
      ensures region.None? ==> Refused(gives, old(asked), asked) || NoRoom(ask, old(tries))
      ensures limit == 0 ==> asked == old(asked) + 1 && (region.Some? <==> gives(old(asked)))
      ensures old(asked) <= asked && old(tries) <= tries && old(lost) <= lost
      ensures limit == 0 ==> tries == old(tries) && lost == old(lost) && freeBytes == old(freeBytes)
    {
      hide SpansOk, ListsOk, Keeps, TotalPages, SameUse, PageCount.Recorded, OneSided, Refused;
      var ok := EnsureLimit(ask, true);
      KeepsUse(old(spans), old(owner), spans, owner);
      region := None;
      if ok {
        region := SystemAlloc(ask);
        if region.None? {
          RefusedHere(gives, old(asked), old(asked), asked);
        }
      }
    }

    // -------------------------------------------------------------- New

    /**
     * Allocate a span of exactly n pages. Every other span in use is untouched. It fails only if
     * n is beyond all bounds, the system or the page map got no memory, or, under a heap limit,
     * the limit cannot be met or the system has refused a release. The span taken is the one that
     * the search picks from the lists at the attempt `at`; without a limit and with something long
     * enough to start with, these are the lists as they were, and nothing shorter would do.
     */
    method New(n: nat) returns (r: Option<SpanId>, ghost at: Attempt)
      requires Valid() && 0 < n
      modifies this
      ensures Valid()
      ensures r.Some? ==> OneMoreUsed(old(spans), spans, r.value, n) && TakenAt(at, n, r.value, spans, owner)
      ensures limit == 0 && !NoneFit(old(spans), n) ==>
                r.Some? && at == old(Here()) && Shortest(old(spans), r.value, n) && asked == old(asked)
      ensures limit == 0 && old(Scattered(n)) && !NoStretch(old(spans), old(owner), n) && old(freeBytes) < PAGE * 0x7fffffff ==>
                Refused(releases, old(tries), tries) || (r.Some? && asked == old(asked))
      ensures r.None? ==> SameUse(old(spans), spans)
      ensures r.None? ==> MAX_VALID_PAGES < n || Refused(gives, old(asked), asked) ||
                          (limit != 0 && (!LimitOk(n) || Refused(releases, old(tries), tries)))
      ensures old(asked) <= asked && old(tries) <= tries && old(lost) <= lost
      ensures limit == 0 && aggressive && old(freeBytes) == 0 && NoneFit(old(spans), n) && r.Some? && releases(old(tries)) ==>
                freeBytes == 0 && tries == old(tries) + 1 && lost == old(lost)
    {
      hide SpansOk, ListsOk, Keeps, Takes, TotalPages, Tiles, SameUse, OneMoreUsed, PageCount.Recorded, OneSided, Refused,
           NoneFit, TakenAt, Shortest, NoStretch;
      r, at := FirstTry(n);
      if r.Some? {
        return;
      }
      ghost var spans1, a1, t1 := spans, asked, tries;
      var ok := GrowHeap(n);
      if Refused(releases, old(tries), t1) {
        RefusedWithin(releases, old(tries), old(tries), t1, tries);
      }
      SameUseTrans(old(spans), spans1, spans);
      if !ok {
        if n <= MAX_VALID_PAGES {
          NoneAsked(n, old(asked), old(tries), a1, t1);
        }
        return;
      }
      SomethingFits(n);
      ghost var spans2, owner2, t2 := spans, owner, tries;
      r, at := SearchFreeAndLargeLists(n);
      NothingNegative({});
      UseAfter(old(spans), spans2, owner2, spans, owner, r, n);
      if Refused(releases, t2, tries) {
        RefusedWithin(releases, old(tries), t2, tries, tries);
        if limit == 0 {
          NotRefused(releases, t2);
        }
      }
    }

    lemma SomethingFits(n: nat)
      requires exists p: nat :: FreeRunAt(p, n)
      ensures !NoneFit(spans, n)
    {
    }

    static lemma UseAfter(s0: map<SpanId, Span>, s1: map<SpanId, Span>, o1: map<nat, SpanId>,
                          s2: map<SpanId, Span>, o2: map<nat, SpanId>, r: Option<SpanId>, n: nat)
      requires SameUse(s0, s1) && Outcome(s1, o1, s2, o2, r, n)
      ensures r.Some? ==> OneMoreUsed(s0, s2, r.value, n)
      ensures r.None? ==> SameUse(s0, s2)
    {
      match r {
        case None =>
          KeepsUse(s1, o1, s2, o2);
          SameUseTrans(s0, s1, s2);
        case Some(id) =>
          TakesUse(s0, s1, o1, s2, o2, id, n);
      }
    }

    const FORCED_COALESCE_INTERVAL: nat := 134217728

    /** Lots of memory is free, some of it of either kind, and the heap is about to outgrow another 128 megabytes. */
    ghost predicate Scattered(n: nat)
      reads `freeBytes, `unmappedBytes, `systemBytes
    {
      && freeBytes != 0 && unmappedBytes != 0 && systemBytes / 4 <= freeBytes + unmappedBytes
      && systemBytes / 134217728 != (systemBytes + PAGE * n) / 134217728
    }

    /** When everything free is decommitted, neighbouring free pages belong to one span. */
    lemma SameSpan(q: nat)
      requires Valid() && freeBytes == 0 && InFree(spans, owner, q) && InFree(spans, owner, q + 1)
      ensures owner[q] == owner[q + 1]
    {
      hide Sound, OneSided;
      AllReturned();
      if owner[q] != owner[q + 1] {
        MaximallyCoalesced(q);
      }
    }

    lemma {:induction false} StretchInOneSpan(p: nat, n: nat)
      requires Valid() && freeBytes == 0 && 0 < n && Stretch(spans, owner, p, n)
      ensures InFree(spans, owner, p) && InFree(spans, owner, p + n - 1) && owner[p + n - 1] == owner[p]
    {
      hide Sound, OneSided;
      assert InFree(spans, owner, p) && InFree(spans, owner, p + n - 1);
      if n != 1 {
        var q := p + n - 2;
        assert InFree(spans, owner, q);
        StretchInOneSpan(p, n - 1);
        SameSpan(q);
      }
    }

    lemma NoStretchNow(n: nat)
      requires Valid() && freeBytes == 0 && 0 < n && NoneFit(spans, n)
      ensures NoStretch(spans, owner, n)
    {
      hide Sound, OneSided, NoneFit, Stretch, InFree;
      forall p: nat ensures !Stretch(spans, owner, p, n) {
        if Stretch(spans, owner, p, n) {
          StretchInOneSpan(p, n);
          OneSpanHolds(p, n);
        }
      }
    }

    /** A span that holds a page and another n - 1 pages further has at least n pages. */
    lemma OneSpanHolds(p: nat, n: nat)
      requires Valid() && 0 < n && InFree(spans, owner, p) && InFree(spans, owner, p + n - 1) && owner[p + n - 1] == owner[p]
      ensures !NoneFit(spans, n)
    {
      TilesNow();
      hide Sound, OneSided;
      var x := owner[p];
      assert Covers(spans[x], p) && Covers(spans[x], p + n - 1);
    }

    /** Search, and once more after releasing everything when lots of free memory is scattered. */
    method FirstTry(n: nat) returns (r: Option<SpanId>, ghost at: Attempt)
      requires Valid() && 0 < n
      modifies this`spans, this`owner, this`pagemap, this`normal, this`returned, this`freeBytes, this`unmappedBytes,
               this`committedBytes, this`releaseIndex, this`nextId, this`tries, this`lost
      ensures Valid()
      ensures r.Some? ==> OneMoreUsed(old(spans), spans, r.value, n)
      ensures r.None? ==> SameUse(old(spans), spans)
      ensures old(tries) <= tries && old(lost) <= lost
      ensures limit == 0 && old(freeBytes) == 0 ==> freeBytes == 0 && tries == old(tries) && lost == old(lost)
      ensures limit == 0 && old(freeBytes) == 0 && NoneFit(old(spans), n) ==> r.None?
      ensures r.Some? ==> TakenAt(at, n, r.value, spans, owner)
      ensures limit == 0 && !NoneFit(old(spans), n) ==> r.Some? && at == old(Here()) && Shortest(old(spans), r.value, n)
      ensures limit == 0 && r.None? && old(Scattered(n)) ==>
                Refused(releases, old(tries), tries) || PAGE * 0x7fffffff <= old(freeBytes) || NoStretch(old(spans), old(owner), n)
    {
      hide Sound, Keeps, Takes, SameUse, OneMoreUsed, OneSided, Refused, TakenAt, Stretch, NoStretch;
      ghost var owner0 := owner;
      KeepsSelf();
      KeepsUse(spans, owner, spans, owner);
      r, at := SearchFreeAndLargeLists(n);
      NothingNegative({});
      UseAfter(old(spans), old(spans), owner0, spans, owner, r, n);
      assert limit == 0 && r.None? ==> NoneFit(old(spans), n);
      if r.None? && freeBytes != 0 && unmappedBytes != 0 && systemBytes / 4 <= freeBytes + unmappedBytes &&
         systemBytes / FORCED_COALESCE_INTERVAL != (systemBytes + PAGE * n) / FORCED_COALESCE_INTERVAL {
        ghost var spans1, owner1 := spans, owner;
        ghost var t1 := tries;
        var released := ReleaseAtLeastNPages(0x7fffffff);
        KeepsUse(spans1, owner1, spans, owner);
        SameUseTrans(old(spans), spans1, spans);
        NothingNegative({});
        if freeBytes == 0 && NoneFit(spans, n) {
          NoStretchNow(n);
          NoStretchBefore(spans1, owner1, spans, owner, n);
        }
        if Refused(releases, t1, tries) {
          RefusedWithin(releases, old(tries), t1, tries, tries);
        }
        ghost var spans2, owner2 := spans, owner;
        r, at := SearchFreeAndLargeLists(n);
        UseAfter(old(spans), spans2, owner2, spans, owner, r, n);
      }
    }

    // -------------------------------------------------------------- what the counters mean

    /**
     * free_bytes counts the recorded pages in normal spans, unmapped_bytes those in returned
     * spans, and no counter ever goes below zero or above system_bytes.
     */
    lemma CountersAreTrue()
      requires Valid()
      ensures freeBytes == PAGE * |PageCount.PagesAtLocation(spans, owner, Normal)|
      ensures unmappedBytes == PAGE * |PageCount.PagesAtLocation(spans, owner, Returned)|
      ensures 0 <= freeBytes && 0 <= unmappedBytes && freeBytes + unmappedBytes <= systemBytes
      ensures unmappedBytes <= systemTaken && committedBytes <= systemBytes && (lost == 0 ==> 0 <= committedBytes)
    {
      PageCount.TotalIsPageCount(spans, owner, normal, Normal);
      PageCount.TotalIsPageCount(spans, owner, returned, Returned);
      PageCount.FreeWithinRecorded(spans, owner, normal, returned);
    }

    /**
     * The ledger is out by exactly the lost bytes; outside aggressive mode, or if every release so
     * far had the same outcome, none are lost.
     */
    lemma LedgerExact()
      requires Valid()
      ensures unmappedBytes + committedBytes + lost == systemBytes && (Balanced() <==> lost == 0)
      ensures !aggressive || All(releases, tries, true) || All(releases, tries, false) ==> Balanced()
    {
    }

    /** In aggressive mode memory stays committed only after a release was tried. */
    lemma CommittedMeansTried()
      requires OneSided() && aggressive && 0 < freeBytes
      ensures 0 < tries
    {
    }

    /** In every valid state, no two neighbouring free spans could be merged under the mode. */
    lemma MaximallyCoalesced(p: nat)
      requires Valid() && p in owner && p + 1 in owner && owner[p] != owner[p + 1]
      ensures owner[p] in spans && owner[p + 1] in spans
      ensures !Mergeable(aggressive, spans[owner[p]], spans[owner[p + 1]])
    {
      var a, b := owner[p], owner[p + 1];
      assert Covers(spans[a], p) && Covers(spans[b], p + 1);
      assert !Covers(spans[a], p + 1) && !Covers(spans[b], p);
    }

    /** GetDescriptor at either end of a live span, and anywhere in a registered one, finds it. */
    lemma DescriptorsRight(id: SpanId, p: nat)
      requires Valid() && id in spans && Covers(spans[id], p)
      requires p == spans[id].start || p == End(spans[id]) - 1 || 0 < spans[id].sizeclass
      ensures GetDescriptor(p) == Some(id) && owner[p] == id
    {
      hide PageCount.Recorded, TotalPages, ListsOk, OneSided;
      SpanIsMapped(id);
    }
  }

  /**
   * A run that unbalances the ledger: allocate two pages, split them, free the second, which is
   * decommitted, and free the first when the system refuses. The decommitted page next to it is
   * then lost.
   */
  method RefusedReleaseLosesBytes() returns (h: Heap)
    ensures h.Valid() && h.aggressive && PAGE <= h.lost && !h.Balanced()
  {
    hide SpansOk, ListsOk, Keeps, TotalPages, Tiles, PageCount.Recorded, Heap.OneSided, Refused, Heap.Sound;
    h := new Heap(true, 0, 1.0, _ => true, i => i < 2);
    var r, at := h.New(2);
    NeverRefused(h.gives, 0, h.asked);
    var a := r.value;
    var b := h.Split(a, 1);
    ghost var s0, o0 := h.spans, h.owner;
    h.TilesNow();
    h.Delete(b);
    h.TilesNow();
    h.AllReturned();
    NeighbourReturned(s0, o0, h.spans, h.owner, a, b);
    h.Delete(a);
    h.LedgerExact();
  }

  /**
   * A run that loses bytes with no refusal to blame: the region got from the system stays committed
   * because its release is refused, and every release after that works, so that the first span
   * released is decommitted twice. Scavenging may have done so at once.
   */
  method SecondReleaseLosesBytes() returns (h: Heap)
    ensures h.Valid() && h.aggressive && 0 < h.lost && !h.Balanced()
    ensures forall i :: 0 < i ==> h.releases(i)
  {
    hide Heap.OneSided, Refused, Heap.Sound;
    h := new Heap(true, 0, 1.0, _ => true, i => 0 < i);
    var ok := h.GrowHeap(1);
    NeverRefused(h.gives, 0, h.asked);
    if 0 < h.freeBytes {
      h.CommittedMeansTried();
      ReleaseTwice(h);
    }
    h.LedgerExact();
  }

  /** With something committed to release and no refusal, a release in aggressive mode loses bytes. */
  method ReleaseTwice(h: Heap)
    requires h.Valid() && h.aggressive && 0 < h.freeBytes && forall i :: h.tries <= i ==> h.releases(i)
    modifies h
    ensures h.Valid() && old(h.lost) < h.lost
  {
    hide Heap.OneSided, Refused, Heap.Sound, Keeps, NoNewNormal;
    var t := h.tries;
    var released := h.ReleaseAtLeastNPages(1);
    NeverRefused(h.releases, t, h.tries);
  }

  /** When everything free is decommitted, a freed span leaves decommitted pages next to its neighbour. */
  lemma NeighbourReturned(s0: map<SpanId, Span>, o0: map<nat, SpanId>, s1: map<SpanId, Span>, o1: map<nat, SpanId>,
                          a: SpanId, b: SpanId)
    requires Tiles(s0, o0) && Tiles(s1, o1) && a in s0 && b in s0 && a != b
    requires s0[a].location == InUse && End(s0[a]) == s0[b].start
    requires Keeps(s0[b := Freed(s0[b])], o0, s1, o1)
    requires forall x :: x in s1 && Free(s1[x]) ==> s1[x].location == Returned
    ensures a in s1 && s1[a] == s0[a] && PAGE <= ReturnedAround(s1, o1, a)
  {
    var p := End(s0[a]);
    assert Covers(s0[b], p);
    assert Free(s0[b := Freed(s0[b])][o0[p]]);
    assert p in o0.Keys;
  }

  lemma NeverRefused(answers: nat -> bool, lo: nat, hi: nat)
    requires forall i :: lo <= i < hi ==> answers(i)
    ensures !Refused(answers, lo, hi)
  {
  }
}
