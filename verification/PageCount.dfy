/** List totals against the page-by-page truth: the counters count recorded pages. */
module PageCount {
  import opened Collections
  import opened SpanLayout

  /** How many pages are recorded. */
  function Recorded(owner: map<nat, SpanId>): nat {
    |owner|
  }

  /** The recorded pages whose span is in a set of spans. */
  function PagesOf(owner: map<nat, SpanId>, ids: set<SpanId>): set<nat> {
    set p | p in owner && owner[p] in ids
  }

  /** The recorded pages whose span is at a location. */
  ghost function PagesAtLocation(spans: map<SpanId, Span>, owner: map<nat, SpanId>, loc: Location): set<nat> {
    set p | p in owner && owner[p] in spans && spans[owner[p]].location == loc
  }

  function Range(lo: nat, n: nat): (r: set<nat>)
    ensures forall p: nat :: p in r <==> lo <= p < lo + n
    ensures |r| == n
  {
    if n == 0 then {} else Range(lo, n - 1) + {lo + n - 1}
  }

  /** A live span has as many recorded pages as its length says. */
  lemma OneSpan(spans: map<SpanId, Span>, owner: map<nat, SpanId>, id: SpanId)
    requires Tiles(spans, owner) && id in spans
    ensures |PagesOf(owner, {id})| == spans[id].length
  {
    var s := spans[id];
    forall p: nat ensures p in PagesOf(owner, {id}) <==> p in Range(s.start, s.length) {
      if Covers(s, p) {
        assert Covers(spans[id], p);
      }
    }
    assert PagesOf(owner, {id}) == Range(s.start, s.length);
  }

  lemma TwoParts(owner: map<nat, SpanId>, a: set<SpanId>, b: set<SpanId>)
    requires a !! b
    ensures |PagesOf(owner, a + b)| == |PagesOf(owner, a)| + |PagesOf(owner, b)|
  {
    assert PagesOf(owner, a + b) == PagesOf(owner, a) + PagesOf(owner, b);
    assert PagesOf(owner, a) !! PagesOf(owner, b);
  }

  function Elements(s: seq<SpanId>): set<SpanId> {
    set x | x in s
  }

  /** The total of a list is the number of recorded pages of its spans. */
  lemma {:induction false} OneList(spans: map<SpanId, Span>, owner: map<nat, SpanId>, s: seq<SpanId>)
    requires Tiles(spans, owner) && NoDup(s) && forall x :: x in s ==> x in spans
    ensures PagesIn(spans, s) == |PagesOf(owner, Elements(s))|
    decreases |s|
  {
    if s == [] {
      assert PagesOf(owner, Elements(s)) == {};
    } else {
      OneList(spans, owner, s[1..]);
      OneSpan(spans, owner, s[0]);
      assert s[0] !in s[1..];
      TwoParts(owner, {s[0]}, Elements(s[1..]));
      assert Elements(s) == {s[0]} + Elements(s[1..]);
    }
  }

  /** The spans on the first k lists. */
  function FirstLists(lists: seq<seq<SpanId>>, k: nat): set<SpanId>
    requires k <= |lists|
  {
    if k == 0 then {} else FirstLists(lists, k - 1) + Elements(lists[k - 1])
  }

  lemma {:induction false} InFirstLists(lists: seq<seq<SpanId>>, k: nat, id: SpanId)
    requires k <= |lists|
    ensures id in FirstLists(lists, k) <==> exists c :: 0 <= c < k && id in lists[c]
  {
    if 0 < k {
      InFirstLists(lists, k - 1, id);
    }
  }

  lemma {:induction false} AllLists(spans: map<SpanId, Span>, owner: map<nat, SpanId>, lists: seq<seq<SpanId>>,
                                    loc: Location, k: nat)
    requires Tiles(spans, owner) && Listed(spans, lists, loc, {}) && k <= |lists|
    ensures PagesOn(spans, lists, k) == |PagesOf(owner, FirstLists(lists, k))|
  {
    hide Tiles, Listed, PagesIn;
    if k == 0 {
      assert PagesOf(owner, FirstLists(lists, 0)) == {};
    } else {
      hide PagesOf;
      AllLists(spans, owner, lists, loc, k - 1);
      NextList(spans, lists, loc, k);
      OneList(spans, owner, lists[k - 1]);
      TwoParts(owner, FirstLists(lists, k - 1), Elements(lists[k - 1]));
    }
  }

  lemma NextList(spans: map<SpanId, Span>, lists: seq<seq<SpanId>>, loc: Location, k: nat)
    requires Listed(spans, lists, loc, {}) && 0 < k <= |lists|
    ensures NoDup(lists[k - 1]) && (forall x :: x in lists[k - 1] ==> x in spans)
    ensures FirstLists(lists, k - 1) !! Elements(lists[k - 1])
  {
    var before, here := FirstLists(lists, k - 1), Elements(lists[k - 1]);
    forall id | id in before ensures id !in here {
      InFirstLists(lists, k - 1, id);
      var c :| 0 <= c < k - 1 && id in lists[c];
      assert id in spans && Cls(spans[id].length) == c;
    }
  }

  /** The pages on the lists of a location are exactly the recorded pages at that location. */
  lemma TotalIsPageCount(spans: map<SpanId, Span>, owner: map<nat, SpanId>, lists: seq<seq<SpanId>>, loc: Location)
    requires Tiles(spans, owner) && Listed(spans, lists, loc, {})
    ensures TotalPages(spans, lists) == |PagesAtLocation(spans, owner, loc)|
  {
    AllLists(spans, owner, lists, loc, |lists|);
    forall p | p in owner
      ensures p in PagesOf(owner, FirstLists(lists, |lists|)) <==> p in PagesAtLocation(spans, owner, loc)
    {
      InFirstLists(lists, |lists|, owner[p]);
      var id := owner[p];
      if id in spans && spans[id].location == loc {
        assert id in lists[Cls(spans[id].length)];
      }
    }
    assert PagesOf(owner, FirstLists(lists, |lists|)) == PagesAtLocation(spans, owner, loc);
  }

  /** Normal and returned pages together are at most the recorded pages. */
  lemma FreeWithinRecorded(spans: map<SpanId, Span>, owner: map<nat, SpanId>, normal: seq<seq<SpanId>>,
                           returned: seq<seq<SpanId>>)
    requires Tiles(spans, owner) && ListsOk(spans, normal, returned, {})
    ensures TotalPages(spans, normal) + TotalPages(spans, returned) <= Recorded(owner)
  {
    TotalIsPageCount(spans, owner, normal, Normal);
    TotalIsPageCount(spans, owner, returned, Returned);
    var a, b := PagesAtLocation(spans, owner, Normal), PagesAtLocation(spans, owner, Returned);
    assert a !! b;
    assert |a + b| == |a| + |b|;
    assert a + b <= owner.Keys;
    Subset(a + b, owner.Keys);
  }

  lemma Subset(a: set<nat>, b: set<nat>)
    requires a <= b
    ensures |a| <= |b|
  {
    assert b == a + (b - a);
  }

  /** Claiming a fresh region records exactly its pages. */
  lemma ClaimCount(owner: map<nat, SpanId>, id: SpanId, s: Span)
    requires forall p :: p in owner ==> !Covers(s, p)
    ensures Recorded(Claim(owner, id, s)) == Recorded(owner) + s.length
  {
    var r := Range(s.start, s.length);
    forall p: nat ensures p in Claim(owner, id, s).Keys <==> p in owner.Keys + r {
      assert Covers(s, p) <==> p in r;
    }
    assert Claim(owner, id, s).Keys == owner.Keys + r;
    assert owner.Keys !! r by {
      forall p | p in owner ensures p !in r {
        assert !Covers(s, p);
      }
    }
  }

  lemma SameCount(a: map<nat, SpanId>, b: map<nat, SpanId>)
    requires a.Keys == b.Keys
    ensures Recorded(a) == Recorded(b)
  {
    assert |a.Keys| == |a| && |b.Keys| == |b|;
  }
}
