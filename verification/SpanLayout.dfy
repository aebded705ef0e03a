/**
 * Spans, the page map and the free lists of the page heap as values, with the facts every
 * operation of the heap relies on. `owner` maps each recorded page to the live span that holds
 * it; the page map is only promised to agree with it at span ends and inside registered spans.
 */
module SpanLayout {
  import opened Collections

  /** For span lengths below this there is one exact-size list per length. */
  const MAX_PAGES: nat := 256
  const PAGE: nat := 65536

  /** A descriptor address; the addresses of deleted descriptors are used again. */
  type SpanId = nat

  datatype Location = InUse | Normal | Returned

  datatype Span = Span(start: nat, length: nat, location: Location, sizeclass: nat)

  function End(s: Span): nat {
    s.start + s.length
  }

  // ---------------------------------------------------------------- tiling

  predicate Covers(s: Span, p: int) {
    s.start <= p < End(s)
  }

  /** The live spans tile the recorded pages: every recorded page is in exactly one of them. */
  ghost predicate Tiles(spans: map<SpanId, Span>, owner: map<nat, SpanId>) {
    && (forall id :: id in spans ==> 0 < spans[id].length)
    && (forall id, p: nat {:trigger Covers(spans[id], p)} :: id in spans && Covers(spans[id], p) ==> p in owner && owner[p] == id)
    && (forall p {:trigger owner[p]} :: p in owner ==> owner[p] in spans && Covers(spans[owner[p]], p))
    && 0 !in owner
  }

  /** Distinct live spans share no page. */
  lemma SpansDisjoint(spans: map<SpanId, Span>, owner: map<nat, SpanId>, a: SpanId, b: SpanId, p: nat)
    requires Tiles(spans, owner) && a in spans && b in spans && Covers(spans[a], p) && Covers(spans[b], p)
    ensures a == b
  {
    assert owner[p] == a && owner[p] == b;
  }

  /** The page after a span is unrecorded or starts another span. */
  lemma NextStarts(spans: map<SpanId, Span>, owner: map<nat, SpanId>, id: SpanId)
    requires Tiles(spans, owner) && id in spans
    ensures var e := End(spans[id]);
            e in owner ==> owner[e] != id && owner[e] in spans && spans[owner[e]].start == e
  {
    var e := End(spans[id]);
    if e in owner {
      var o := owner[e];
      assert Covers(spans[o], e);
      if spans[o].start < e {
        SpansDisjoint(spans, owner, o, id, e - 1);
      }
    }
  }

  /** The page before a span is unrecorded or ends another span. */
  lemma PrevEnds(spans: map<SpanId, Span>, owner: map<nat, SpanId>, id: SpanId)
    requires Tiles(spans, owner) && id in spans
    ensures var s := spans[id].start;
            && 0 < s
            && (s - 1 in owner ==> owner[s - 1] != id && owner[s - 1] in spans && End(spans[owner[s - 1]]) == s)
  {
    var s := spans[id].start;
    assert Covers(spans[id], s);
    if 0 < s && s - 1 in owner {
      var o := owner[s - 1];
      if s < End(spans[o]) {
        SpansDisjoint(spans, owner, o, id, s);
      }
    }
  }

  /** Hand all pages of span b over to span a. */
  function Absorb(owner: map<nat, SpanId>, a: SpanId, b: SpanId): map<nat, SpanId> {
    map p | p in owner :: if owner[p] == b then a else owner[p]
  }

  /** The two spans are next to each other. */
  predicate Adjacent(a: Span, b: Span) {
    End(a) == b.start || End(b) == a.start
  }

  function Joined(a: Span, b: Span): Span {
    a.(start := if End(b) == a.start then b.start else a.start, length := a.length + b.length)
  }

  /** Joining two adjacent spans keeps the tiling. */
  lemma JoinTiles(spans: map<SpanId, Span>, owner: map<nat, SpanId>, a: SpanId, b: SpanId)
    requires Tiles(spans, owner) && a in spans && b in spans && a != b && Adjacent(spans[a], spans[b])
    ensures Tiles((spans - {b})[a := Joined(spans[a], spans[b])], Absorb(owner, a, b))
  {
    var spans', owner' := (spans - {b})[a := Joined(spans[a], spans[b])], Absorb(owner, a, b);
    forall id, p: nat | id in spans' && Covers(spans'[id], p) ensures p in owner' && owner'[p] == id {
      if id == a {
        assert Covers(spans[a], p) || Covers(spans[b], p);
      } else {
        assert Covers(spans[id], p);
      }
    }
    forall p | p in owner' ensures owner'[p] in spans' && Covers(spans'[owner'[p]], p) {
      assert owner[p] in spans && Covers(spans[owner[p]], p);
    }
  }

  /** Give the pages of span a from page q on to span b. */
  function Cut(owner: map<nat, SpanId>, a: SpanId, b: SpanId, q: nat): map<nat, SpanId> {
    map p | p in owner :: if owner[p] == a && q <= p then b else owner[p]
  }

  /** Cutting a span in two keeps the tiling. */
  lemma CutTiles(spans: map<SpanId, Span>, owner: map<nat, SpanId>, a: SpanId, b: SpanId, n: nat, sa: Span, sb: Span)
    requires Tiles(spans, owner) && a in spans && b !in spans && 0 < n < spans[a].length
    requires sa.start == spans[a].start && sa.length == n
    requires sb.start == spans[a].start + n && sb.length == spans[a].length - n
    ensures Tiles(spans[a := sa][b := sb], Cut(owner, a, b, spans[a].start + n))
  {
    var spans', owner' := spans[a := sa][b := sb], Cut(owner, a, b, spans[a].start + n);
    forall id, p: nat | id in spans' && Covers(spans'[id], p) ensures p in owner' && owner'[p] == id {
      if id == a || id == b {
        assert Covers(spans[a], p);
      } else {
        assert Covers(spans[id], p);
      }
    }
    forall p | p in owner' ensures owner'[p] in spans' && Covers(spans'[owner'[p]], p) {
      assert owner[p] in spans && Covers(spans[owner[p]], p);
    }
  }

  /** Record the pages of a new span. */
  function Claim(owner: map<nat, SpanId>, id: SpanId, s: Span): (r: map<nat, SpanId>)
    ensures forall p: nat :: p in r <==> p in owner || Covers(s, p)
    ensures forall p: nat :: Covers(s, p) ==> r[p] == id
    ensures forall p :: p in owner && !Covers(s, p) ==> r[p] == owner[p]
  {
    owner + (map p: nat | s.start <= p < End(s) && Covers(s, p) :: id)
  }

  lemma ClaimTiles(spans: map<SpanId, Span>, owner: map<nat, SpanId>, id: SpanId, s: Span)
    requires Tiles(spans, owner) && id !in spans && 0 < s.start && 0 < s.length
    requires forall p :: p in owner ==> !Covers(s, p)
    ensures Tiles(spans[id := s], Claim(owner, id, s))
  {
    var spans', owner' := spans[id := s], Claim(owner, id, s);
    forall i, p: nat | i in spans' && Covers(spans'[i], p) ensures p in owner' && owner'[p] == i {
      if i != id {
        assert Covers(spans[i], p);
        assert p in owner;
      }
    }
    forall p | p in owner' ensures owner'[p] in spans' && Covers(spans'[owner'[p]], p) {
      if p in owner {
        assert owner'[p] == owner[p];
      }
    }
  }

  /** Changing anything but the range of a span keeps the tiling. */
  lemma RelabelTiles(spans: map<SpanId, Span>, owner: map<nat, SpanId>, id: SpanId, s: Span)
    requires Tiles(spans, owner) && id in spans && s.start == spans[id].start && s.length == spans[id].length
    ensures Tiles(spans[id := s], owner)
  {
    var spans' := spans[id := s];
    forall i, p: nat | i in spans' && Covers(spans'[i], p) ensures p in owner && owner[p] == i {
      assert Covers(spans[i], p);
    }
    forall p | p in owner ensures owner[p] in spans' && Covers(spans'[owner[p]], p) {
      assert Covers(spans[owner[p]], p);
    }
  }

  // ---------------------------------------------------------------- the page map

  /** The page map is right at both ends of a span, and everywhere in a registered one. */
  ghost predicate MappedAt(pagemap: map<nat, SpanId>, id: SpanId, s: Span) {
    && s.start in pagemap && pagemap[s.start] == id
    && 0 < s.length && End(s) - 1 in pagemap && pagemap[End(s) - 1] == id
    && (0 < s.sizeclass ==> forall p: nat :: Covers(s, p) ==> p in pagemap && pagemap[p] == id)
  }

  /**
   * What the page map promises. Interior entries of unregistered spans may be stale: they may
   * name deleted spans, or other spans whose descriptors were allocated since.
   */
  ghost predicate Mapped(spans: map<SpanId, Span>, owner: map<nat, SpanId>, pagemap: map<nat, SpanId>) {
    && (forall id {:trigger MappedAt(pagemap, id, spans[id])} :: id in spans ==> MappedAt(pagemap, id, spans[id]))
    && pagemap.Keys <= owner.Keys
  }

  /** Reading the page map just outside a span gives its true neighbour or nothing. */
  lemma NeighbourFound(spans: map<SpanId, Span>, owner: map<nat, SpanId>, pagemap: map<nat, SpanId>, id: SpanId)
    requires Tiles(spans, owner) && Mapped(spans, owner, pagemap) && id in spans
    ensures var (s, e) := (spans[id].start, End(spans[id]));
            && 0 < s
            && (s - 1 in pagemap <==> s - 1 in owner) && (s - 1 in pagemap ==> pagemap[s - 1] == owner[s - 1])
            && (e in pagemap <==> e in owner) && (e in pagemap ==> pagemap[e] == owner[e])
  {
    PrevEnds(spans, owner, id);
    NextStarts(spans, owner, id);
    var s, e := spans[id].start, End(spans[id]);
    if s - 1 in owner {
      assert MappedAt(pagemap, owner[s - 1], spans[owner[s - 1]]);
    }
    if e in owner {
      assert MappedAt(pagemap, owner[e], spans[owner[e]]);
    }
  }

  /** Writing a page of one span does not disturb what is promised about another. */
  lemma SetElsewhere(pagemap: map<nat, SpanId>, id: SpanId, s: Span, p: nat, x: SpanId)
    requires MappedAt(pagemap, id, s) && !Covers(s, p)
    ensures MappedAt(pagemap[p := x], id, s)
  {
  }

  /** The page map after joining: only the new far end is written. */
  function JoinMap(pagemap: map<nat, SpanId>, a: SpanId, sa: Span, sb: Span): map<nat, SpanId>
    requires 0 < sb.length
  {
    if End(sb) == sa.start then pagemap[sb.start := a] else pagemap[End(sb) - 1 := a]
  }

  lemma JoinMapped(spans: map<SpanId, Span>, owner: map<nat, SpanId>, pagemap: map<nat, SpanId>, a: SpanId, b: SpanId)
    requires Tiles(spans, owner) && Mapped(spans, owner, pagemap)
    requires a in spans && b in spans && a != b && Adjacent(spans[a], spans[b]) && spans[a].sizeclass == 0
    ensures Mapped((spans - {b})[a := Joined(spans[a], spans[b])], Absorb(owner, a, b),
                   JoinMap(pagemap, a, spans[a], spans[b]))
  {
    var spans' := (spans - {b})[a := Joined(spans[a], spans[b])];
    var p := if End(spans[b]) == spans[a].start then spans[b].start else End(spans[b]) - 1;
    assert MappedAt(pagemap, a, spans[a]);
    JoinMapsSelf(pagemap, a, spans[a], spans[b]);
    assert Covers(spans[b], p) && p in owner;
    forall id | id in spans' ensures MappedAt(pagemap[p := a], id, spans'[id]) {
      if id != a {
        assert MappedAt(pagemap, id, spans[id]);
        Outside(spans, owner, b, id, p);
        SetElsewhere(pagemap, id, spans[id], p, a);
      }
    }
    AbsorbKeys(owner, a, b);
  }

  lemma AbsorbKeys(owner: map<nat, SpanId>, a: SpanId, b: SpanId)
    ensures Absorb(owner, a, b).Keys == owner.Keys
  {
  }

  lemma CutKeys(owner: map<nat, SpanId>, a: SpanId, b: SpanId, q: nat)
    ensures Cut(owner, a, b, q).Keys == owner.Keys
  {
  }

  lemma JoinMapsSelf(pagemap: map<nat, SpanId>, a: SpanId, sa: Span, sb: Span)
    requires MappedAt(pagemap, a, sa) && 0 < sb.length && Adjacent(sa, sb) && sa.sizeclass == 0
    ensures MappedAt(JoinMap(pagemap, a, sa, sb), a, Joined(sa, sb))
  {
  }

  /** RecordSpan: both ends of a span. */
  function Record(pagemap: map<nat, SpanId>, id: SpanId, s: Span): map<nat, SpanId>
    requires 0 < s.length
  {
    pagemap[s.start := id][End(s) - 1 := id]
  }

  /** The page map after cutting: both ends of the new span, then the new end of the old one. */
  function CutMap(pagemap: map<nat, SpanId>, a: SpanId, sa: Span, b: SpanId, sb: Span): map<nat, SpanId>
    requires 0 < sa.length && 0 < sb.length
  {
    Record(pagemap, b, sb)[End(sa) - 1 := a]
  }

  lemma CutMapped(spans: map<SpanId, Span>, owner: map<nat, SpanId>, pagemap: map<nat, SpanId>,
                  a: SpanId, b: SpanId, n: nat, sa: Span, sb: Span)
    requires Tiles(spans, owner) && Mapped(spans, owner, pagemap) && a in spans && b !in spans
    requires 0 < n < spans[a].length && sa.sizeclass == 0 && sb.sizeclass == 0
    requires sa.start == spans[a].start && sa.length == n
    requires sb.start == spans[a].start + n && sb.length == spans[a].length - n
    ensures Mapped(spans[a := sa][b := sb], Cut(owner, a, b, spans[a].start + n), CutMap(pagemap, a, sa, b, sb))
  {
    var spans', owner' := spans[a := sa][b := sb], Cut(owner, a, b, spans[a].start + n);
    assert MappedAt(pagemap, a, spans[a]);
    CutMapsSelf(pagemap, a, spans[a], b, sa, sb);
    assert Covers(spans[a], sb.start) && Covers(spans[a], End(sb) - 1) && Covers(spans[a], End(sa) - 1);
    CutMapsOthers(spans, owner, pagemap, a, b, sa, sb);
    CutKeys(owner, a, b, spans[a].start + n);
    MappedFrom(spans', owner', CutMap(pagemap, a, sa, b, sb));
  }

  lemma MappedFrom(spans: map<SpanId, Span>, owner: map<nat, SpanId>, pagemap: map<nat, SpanId>)
    requires forall id {:trigger MappedAt(pagemap, id, spans[id])} :: id in spans ==> MappedAt(pagemap, id, spans[id])
    requires pagemap.Keys <= owner.Keys
    ensures Mapped(spans, owner, pagemap)
  {
  }

  lemma CutMapsOthers(spans: map<SpanId, Span>, owner: map<nat, SpanId>, pagemap: map<nat, SpanId>,
                      a: SpanId, b: SpanId, sa: Span, sb: Span)
    requires Tiles(spans, owner) && Mapped(spans, owner, pagemap) && a in spans
    requires 0 < sa.length && 0 < sb.length
    requires Covers(spans[a], sb.start) && Covers(spans[a], End(sb) - 1) && Covers(spans[a], End(sa) - 1)
    ensures var pagemap' := CutMap(pagemap, a, sa, b, sb);
            && (forall id {:trigger MappedAt(pagemap', id, spans[id])} :: id in spans && id != a ==>
                  MappedAt(pagemap', id, spans[id]))
            && pagemap'.Keys <= owner.Keys
  {
    var pagemap' := CutMap(pagemap, a, sa, b, sb);
    forall id | id in spans && id != a ensures MappedAt(pagemap', id, spans[id]) {
      assert MappedAt(pagemap, id, spans[id]);
      CutElsewhere(spans, owner, pagemap, a, id, b, sa, sb);
    }
  }

  lemma CutMapsSelf(pagemap: map<nat, SpanId>, a: SpanId, s: Span, b: SpanId, sa: Span, sb: Span)
    requires MappedAt(pagemap, a, s) && a != b && 0 < sa.length && 0 < sb.length
    requires sa.start == s.start && sb.start == End(sa) && End(sb) == End(s) && sa.sizeclass == 0 && sb.sizeclass == 0
    ensures MappedAt(CutMap(pagemap, a, sa, b, sb), a, sa) && MappedAt(CutMap(pagemap, a, sa, b, sb), b, sb)
  {
  }

  lemma CutElsewhere(spans: map<SpanId, Span>, owner: map<nat, SpanId>, pagemap: map<nat, SpanId>,
                     a: SpanId, id: SpanId, b: SpanId, sa: Span, sb: Span)
    requires Tiles(spans, owner) && a in spans && id in spans && id != a && MappedAt(pagemap, id, spans[id])
    requires 0 < sa.length && 0 < sb.length
    requires Covers(spans[a], sb.start) && Covers(spans[a], End(sb) - 1) && Covers(spans[a], End(sa) - 1)
    ensures MappedAt(CutMap(pagemap, a, sa, b, sb), id, spans[id])
  {
    Outside(spans, owner, a, id, sb.start);
    Outside(spans, owner, a, id, End(sb) - 1);
    Outside(spans, owner, a, id, End(sa) - 1);
    SetElsewhere(pagemap, id, spans[id], sb.start, b);
    SetElsewhere(pagemap[sb.start := b], id, spans[id], End(sb) - 1, b);
    SetElsewhere(Record(pagemap, b, sb), id, spans[id], End(sa) - 1, a);
  }

  lemma Outside(spans: map<SpanId, Span>, owner: map<nat, SpanId>, a: SpanId, id: SpanId, p: nat)
    requires Tiles(spans, owner) && a in spans && id in spans && id != a && Covers(spans[a], p)
    ensures !Covers(spans[id], p)
  {
    if Covers(spans[id], p) {
      SpansDisjoint(spans, owner, a, id, p);
    }
  }

  lemma ClaimMapped(spans: map<SpanId, Span>, owner: map<nat, SpanId>, pagemap: map<nat, SpanId>, id: SpanId, s: Span)
    requires Tiles(spans, owner) && Mapped(spans, owner, pagemap) && id !in spans && 0 < s.length && s.sizeclass == 0
    requires forall p :: p in owner ==> !Covers(s, p)
    ensures Mapped(spans[id := s], Claim(owner, id, s), Record(pagemap, id, s))
  {
    var spans', pagemap' := spans[id := s], Record(pagemap, id, s);
    assert Covers(s, s.start) && Covers(s, End(s) - 1);
    forall i | i in spans' ensures MappedAt(pagemap', i, spans'[i]) {
      if i != id {
        assert MappedAt(pagemap, i, spans[i]);
        assert !Covers(spans[i], s.start) && !Covers(spans[i], End(s) - 1);
        SetElsewhere(pagemap, i, spans[i], s.start, id);
        SetElsewhere(pagemap[s.start := id], i, spans[i], End(s) - 1, id);
      }
    }
  }

  /** Relabelling keeps the promises unless it registers the span. */
  lemma RelabelMapped(spans: map<SpanId, Span>, owner: map<nat, SpanId>, pagemap: map<nat, SpanId>, id: SpanId, s: Span)
    requires Mapped(spans, owner, pagemap) && id in spans && s.start == spans[id].start && s.length == spans[id].length
    requires s.sizeclass == 0
    ensures Mapped(spans[id := s], owner, pagemap)
  {
    var spans' := spans[id := s];
    forall i | i in spans' ensures MappedAt(pagemap, i, spans'[i]) {
      assert MappedAt(pagemap, i, spans[i]);
    }
  }

  // ---------------------------------------------------------------- coalescing

  predicate Free(s: Span) {
    s.location != InUse
  }

  /** Whether two free neighbours are to be merged: any two in aggressive mode, like ones otherwise. */
  predicate Mergeable(aggressive: bool, a: Span, b: Span) {
    Free(a) && Free(b) && (aggressive || a.location == b.location)
  }

  /** No two neighbours, neither of them in `except`, could still be merged. */
  ghost predicate Coalesced(aggressive: bool, spans: map<SpanId, Span>, except: set<SpanId>) {
    forall a, b :: a in spans && b in spans && a !in except && b !in except && End(spans[a]) == spans[b].start ==>
      !Mergeable(aggressive, spans[a], spans[b])
  }

  // ---------------------------------------------------------------- free lists

  /** The list a span of a given length belongs to. */
  function Cls(length: nat): (c: nat)
    ensures c <= MAX_PAGES
  {
    if length < MAX_PAGES then length else MAX_PAGES
  }

  /**
   * Apart from the floating spans, the lists hold exactly the spans at a location, each once and
   * in the list of its length.
   */
  ghost predicate Listed(spans: map<SpanId, Span>, lists: seq<seq<SpanId>>, loc: Location, floating: set<SpanId>) {
    && |lists| == MAX_PAGES + 1
    && (forall c :: 0 <= c < |lists| ==> NoDup(lists[c]))
    && (forall c, id :: 0 <= c < |lists| && id in lists[c] ==>
          id in spans && id !in floating && spans[id].location == loc && Cls(spans[id].length) == c)
    && (forall id :: id in spans && id !in floating && spans[id].location == loc ==>
          id in lists[Cls(spans[id].length)])
  }

  /** Taking a span off its list makes it float and takes its pages off the total. */
  lemma Unlist(spans: map<SpanId, Span>, lists: seq<seq<SpanId>>, loc: Location, floating: set<SpanId>, id: SpanId)
    requires Listed(spans, lists, loc, floating) && id in spans && id !in floating && spans[id].location == loc
    ensures var c := Cls(spans[id].length);
            var lists' := lists[c := Without(lists[c], id)];
            && Listed(spans, lists', loc, floating + {id})
            && TotalPages(spans, lists') + spans[id].length == TotalPages(spans, lists)
  {
    hide Without, NoDup, PagesIn, PagesOn;
    var c := Cls(spans[id].length);
    WithoutHas(lists[c], id);
    PagesWithout(spans, lists[c], id);
    PagesOnUpdate(spans, lists, c, Without(lists[c], id), |lists|);
  }

  /** Prepending a floating span to its list ends its floating and adds its pages to the total. */
  lemma Enlist(spans: map<SpanId, Span>, lists: seq<seq<SpanId>>, loc: Location, floating: set<SpanId>, id: SpanId)
    requires Listed(spans, lists, loc, floating) && id in spans && id in floating && spans[id].location == loc
    ensures var c := Cls(spans[id].length);
            var lists' := lists[c := [id] + lists[c]];
            && Listed(spans, lists', loc, floating - {id})
            && TotalPages(spans, lists') == TotalPages(spans, lists) + spans[id].length
  {
    var c := Cls(spans[id].length);
    var l := [id] + lists[c];
    assert l[1..] == lists[c];
    assert id !in lists[c];
    assert forall x :: x in l <==> x == id || x in lists[c];
    PagesOnUpdate(spans, lists, c, l, |lists|);
  }

  /** The other lists do not see a span come or go. */
  lemma FloatElsewhere(spans: map<SpanId, Span>, lists: seq<seq<SpanId>>, loc: Location, floating: set<SpanId>, id: SpanId)
    requires Listed(spans, lists, loc, floating) && id in spans && spans[id].location != loc
    ensures Listed(spans, lists, loc, floating + {id}) && Listed(spans, lists, loc, floating - {id})
  {
  }

  /** Lists and totals do not see changes to floating spans. */
  lemma FloatersChange(spans: map<SpanId, Span>, spans': map<SpanId, Span>, lists: seq<seq<SpanId>>, loc: Location,
                       floating: set<SpanId>, floating': set<SpanId>)
    requires Listed(spans, lists, loc, floating)
    requires forall x :: x in spans && x !in floating ==> x in spans' && spans'[x] == spans[x] && x !in floating'
    requires forall x :: x in spans' && x !in floating' ==> x in spans && x !in floating
    ensures Listed(spans', lists, loc, floating') && TotalPages(spans', lists) == TotalPages(spans, lists)
  {
    PagesOnSame(spans, spans', lists, |lists|);
  }

  /** Total pages of the spans of a list. */
  function PagesIn(spans: map<SpanId, Span>, s: seq<SpanId>): nat {
    if s == [] then 0
    else (if s[0] in spans then spans[s[0]].length else 0) + PagesIn(spans, s[1..])
  }

  /** Total pages on the first k lists. */
  function PagesOn(spans: map<SpanId, Span>, lists: seq<seq<SpanId>>, k: nat): nat
    requires k <= |lists|
  {
    if k == 0 then 0 else PagesOn(spans, lists, k - 1) + PagesIn(spans, lists[k - 1])
  }

  function TotalPages(spans: map<SpanId, Span>, lists: seq<seq<SpanId>>): nat {
    PagesOn(spans, lists, |lists|)
  }

  lemma {:induction false} PagesWithout(spans: map<SpanId, Span>, s: seq<SpanId>, id: SpanId)
    requires id in s && id in spans
    ensures PagesIn(spans, Without(s, id)) + spans[id].length == PagesIn(spans, s)
    decreases |s|
  {
    if s[0] != id {
      PagesWithout(spans, s[1..], id);
      var r := Without(s[1..], id);
      assert ([s[0]] + r)[1..] == r;
    }
  }

  /** List totals depend only on the lengths of the listed spans. */
  lemma {:induction false} PagesSame(spans: map<SpanId, Span>, spans': map<SpanId, Span>, s: seq<SpanId>)
    requires forall id :: id in s ==> id in spans && id in spans' && spans[id].length == spans'[id].length
    ensures PagesIn(spans, s) == PagesIn(spans', s)
    decreases |s|
  {
    if s != [] {
      PagesSame(spans, spans', s[1..]);
    }
  }

  lemma {:induction false} PagesOnUpdate(spans: map<SpanId, Span>, lists: seq<seq<SpanId>>, c: nat, l: seq<SpanId>, k: nat)
    requires c < |lists| && k <= |lists|
    ensures PagesOn(spans, lists[c := l], k)
         == PagesOn(spans, lists, k) + (if c < k then PagesIn(spans, l) - PagesIn(spans, lists[c]) else 0)
  {
    if 0 < k {
      PagesOnUpdate(spans, lists, c, l, k - 1);
    }
  }

  lemma {:induction false} PagesOnSame(spans: map<SpanId, Span>, spans': map<SpanId, Span>, lists: seq<seq<SpanId>>, k: nat)
    requires k <= |lists|
    requires forall c, id :: 0 <= c < |lists| && id in lists[c] ==>
               id in spans && id in spans' && spans[id].length == spans'[id].length
    ensures PagesOn(spans, lists, k) == PagesOn(spans', lists, k)
  {
    if 0 < k {
      PagesOnSame(spans, spans', lists, k - 1);
      PagesSame(spans, spans', lists[k - 1]);
    }
  }

  /** If some list is not empty, and spans have positive lengths, the total is positive; and back. */
  lemma {:induction false} PagesOnZero(spans: map<SpanId, Span>, lists: seq<seq<SpanId>>, k: nat)
    requires k <= |lists|
    requires forall c, id :: 0 <= c < |lists| && id in lists[c] ==> id in spans && 0 < spans[id].length
    ensures PagesOn(spans, lists, k) == 0 <==> forall c :: 0 <= c < k ==> lists[c] == []
  {
    if 0 < k {
      PagesOnZero(spans, lists, k - 1);
      if lists[k - 1] != [] {
        assert lists[k - 1][0] in lists[k - 1];
      }
    }
  }

  // ---------------------------------------------------------------- what internal steps keep

  /**
   * Steps on free memory only: the recorded pages and the spans in use stay exactly the same, and
   * every page of a free span stays in a free span that is at least as long.
   */
  ghost predicate Keeps(spans: map<SpanId, Span>, owner: map<nat, SpanId>,
                        spans': map<SpanId, Span>, owner': map<nat, SpanId>) {
    && owner.Keys == owner'.Keys
    && (forall x :: x in spans && !Free(spans[x]) ==> x in spans' && spans'[x] == spans[x])
    && (forall x :: x in spans' && !Free(spans'[x]) ==> x in spans && spans[x] == spans'[x])
    && (forall p :: p in owner && owner[p] in spans && Free(spans[owner[p]]) ==>
          && owner'[p] in spans' && Free(spans'[owner'[p]])
          && spans[owner[p]].length <= spans'[owner'[p]].length)
  }

  lemma KeepsTrans(s0: map<SpanId, Span>, o0: map<nat, SpanId>, s1: map<SpanId, Span>, o1: map<nat, SpanId>,
                   s2: map<SpanId, Span>, o2: map<nat, SpanId>)
    requires Keeps(s0, o0, s1, o1) && Keeps(s1, o1, s2, o2)
    ensures Keeps(s0, o0, s2, o2)
  {
  }

  lemma KeepsRefl(spans: map<SpanId, Span>, owner: map<nat, SpanId>)
    requires Tiles(spans, owner)
    ensures Keeps(spans, owner, spans, owner)
  {
  }

  lemma JoinKeeps(spans: map<SpanId, Span>, owner: map<nat, SpanId>, a: SpanId, b: SpanId)
    requires Tiles(spans, owner) && a in spans && b in spans && a != b && Free(spans[a]) && Free(spans[b])
    ensures Keeps(spans, owner, (spans - {b})[a := Joined(spans[a], spans[b])], Absorb(owner, a, b))
  {
  }

  lemma RelabelKeeps(spans: map<SpanId, Span>, owner: map<nat, SpanId>, id: SpanId, s: Span)
    requires Tiles(spans, owner) && id in spans && Free(spans[id]) && Free(s) && s.length == spans[id].length
    ensures Keeps(spans, owner, spans[id := s], owner)
  {
  }

  // ---------------------------------------------------------------- the two halves of the heap invariant

  /** Free spans carry no size class. */
  ghost predicate Unregistered(spans: map<SpanId, Span>) {
    forall id :: id in spans && Free(spans[id]) ==> spans[id].sizeclass == 0
  }

  /** Tiling, page map and coalescing, the floating spans aside. */
  ghost predicate SpansOk(aggressive: bool, spans: map<SpanId, Span>, owner: map<nat, SpanId>, pagemap: map<nat, SpanId>,
                          nextId: SpanId, floating: set<SpanId>) {
    && Tiles(spans, owner)
    && Mapped(spans, owner, pagemap)
    && Unregistered(spans)
    && Coalesced(aggressive, spans, floating)
    && (forall id :: id in spans ==> id < nextId)
  }

  /** Both families of lists and their page totals, the floating spans aside. */
  ghost predicate ListsOk(spans: map<SpanId, Span>, normal: seq<seq<SpanId>>, returned: seq<seq<SpanId>>,
                          floating: set<SpanId>) {
    Listed(spans, normal, Normal, floating) && Listed(spans, returned, Returned, floating)
  }

  /** The lists after DLL_Remove of a free span. */
  function Removed(lists: seq<seq<SpanId>>, loc: Location, id: SpanId, s: Span): seq<seq<SpanId>> {
    var c := Cls(s.length);
    if s.location == loc && c < |lists| then lists[c := Without(lists[c], id)] else lists
  }

  /** The lists after DLL_Prepend of a free span. */
  function Prepended(lists: seq<seq<SpanId>>, loc: Location, id: SpanId, s: Span): seq<seq<SpanId>> {
    var c := Cls(s.length);
    if s.location == loc && c < |lists| then lists[c := [id] + lists[c]] else lists
  }

  function PagesAt(loc: Location, s: Span): nat {
    if s.location == loc then s.length else 0
  }

  lemma RemoveOk(spans: map<SpanId, Span>, normal: seq<seq<SpanId>>, returned: seq<seq<SpanId>>,
                 floating: set<SpanId>, id: SpanId)
    requires ListsOk(spans, normal, returned, floating) && id in spans && id !in floating && Free(spans[id])
    ensures var (n, r) := (Removed(normal, Normal, id, spans[id]), Removed(returned, Returned, id, spans[id]));
            && ListsOk(spans, n, r, floating + {id})
            && TotalPages(spans, n) == TotalPages(spans, normal) - PagesAt(Normal, spans[id])
            && TotalPages(spans, r) == TotalPages(spans, returned) - PagesAt(Returned, spans[id])
  {
    if spans[id].location == Normal {
      Unlist(spans, normal, Normal, floating, id);
      FloatElsewhere(spans, returned, Returned, floating, id);
    } else {
      Unlist(spans, returned, Returned, floating, id);
      FloatElsewhere(spans, normal, Normal, floating, id);
    }
  }

  lemma PrependOk(spans: map<SpanId, Span>, normal: seq<seq<SpanId>>, returned: seq<seq<SpanId>>,
                  floating: set<SpanId>, id: SpanId)
    requires ListsOk(spans, normal, returned, floating) && id in spans && id in floating && Free(spans[id])
    ensures var (n, r) := (Prepended(normal, Normal, id, spans[id]), Prepended(returned, Returned, id, spans[id]));
            && ListsOk(spans, n, r, floating - {id})
            && TotalPages(spans, n) == TotalPages(spans, normal) + PagesAt(Normal, spans[id])
            && TotalPages(spans, r) == TotalPages(spans, returned) + PagesAt(Returned, spans[id])
  {
    if spans[id].location == Normal {
      Enlist(spans, normal, Normal, floating, id);
      FloatElsewhere(spans, returned, Returned, floating, id);
    } else {
      Enlist(spans, returned, Returned, floating, id);
      FloatElsewhere(spans, normal, Normal, floating, id);
    }
  }

  lemma FloatersOk(spans: map<SpanId, Span>, spans': map<SpanId, Span>, normal: seq<seq<SpanId>>,
                   returned: seq<seq<SpanId>>, floating: set<SpanId>, floating': set<SpanId>)
    requires ListsOk(spans, normal, returned, floating)
    requires forall x :: x in spans && x !in floating ==> x in spans' && spans'[x] == spans[x] && x !in floating'
    requires forall x :: x in spans' && x !in floating' ==> x in spans && x !in floating
    ensures ListsOk(spans', normal, returned, floating')
    ensures TotalPages(spans', normal) == TotalPages(spans, normal)
    ensures TotalPages(spans', returned) == TotalPages(spans, returned)
  {
    FloatersChange(spans, spans', normal, Normal, floating, floating');
    FloatersChange(spans, spans', returned, Returned, floating, floating');
  }

  /** More spans may float. */
  lemma FewerExceptions(aggressive: bool, spans: map<SpanId, Span>, owner: map<nat, SpanId>, pagemap: map<nat, SpanId>,
                        nextId: SpanId, floating: set<SpanId>, floating': set<SpanId>)
    requires SpansOk(aggressive, spans, owner, pagemap, nextId, floating) && floating <= floating'
    ensures SpansOk(aggressive, spans, owner, pagemap, nextId, floating')
  {
  }

  /** Joining a free neighbour into a floating free span. */
  lemma JoinOk(aggressive: bool, spans: map<SpanId, Span>, owner: map<nat, SpanId>, pagemap: map<nat, SpanId>,
               nextId: SpanId, a: SpanId, b: SpanId)
    requires SpansOk(aggressive, spans, owner, pagemap, nextId, {a, b})
    requires a in spans && b in spans && a != b && Free(spans[a]) && Free(spans[b]) && Adjacent(spans[a], spans[b])
    ensures var spans' := (spans - {b})[a := Joined(spans[a], spans[b])];
            && 0 < spans[b].length
            && SpansOk(aggressive, spans', Absorb(owner, a, b), JoinMap(pagemap, a, spans[a], spans[b]), nextId, {a})
            && Keeps(spans, owner, spans', Absorb(owner, a, b))
  {
    JoinTiles(spans, owner, a, b);
    JoinMapped(spans, owner, pagemap, a, b);
    JoinKeeps(spans, owner, a, b);
  }

  /** No live span that ends where `id` starts could be merged with it. */
  ghost predicate LeftDone(aggressive: bool, spans: map<SpanId, Span>, id: SpanId)
    requires id in spans
  {
    forall a :: a in spans && a != id && End(spans[a]) == spans[id].start ==> !Mergeable(aggressive, spans[a], spans[id])
  }

  /** No live span that starts where `id` ends could be merged with it. */
  ghost predicate RightDone(aggressive: bool, spans: map<SpanId, Span>, id: SpanId)
    requires id in spans
  {
    forall b :: b in spans && b != id && End(spans[id]) == spans[b].start ==> !Mergeable(aggressive, spans[id], spans[b])
  }

  /** A span that ends where another starts owns the page before it. */
  lemma LeftIsOwner(spans: map<SpanId, Span>, owner: map<nat, SpanId>, id: SpanId)
    requires Tiles(spans, owner) && id in spans && 0 < spans[id].start
    ensures forall a :: a in spans && End(spans[a]) == spans[id].start ==>
              spans[id].start - 1 in owner && owner[spans[id].start - 1] == a
  {
    forall a | a in spans && End(spans[a]) == spans[id].start
      ensures spans[id].start - 1 in owner && owner[spans[id].start - 1] == a
    {
      assert Covers(spans[a], spans[id].start - 1);
    }
  }

  /** A span that starts where another ends owns the page after it. */
  lemma RightIsOwner(spans: map<SpanId, Span>, owner: map<nat, SpanId>, id: SpanId)
    requires Tiles(spans, owner) && id in spans
    ensures forall b :: b in spans && spans[b].start == End(spans[id]) ==>
              End(spans[id]) in owner && owner[End(spans[id])] == b
  {
    forall b | b in spans && spans[b].start == End(spans[id])
      ensures End(spans[id]) in owner && owner[End(spans[id])] == b
    {
      assert Covers(spans[b], End(spans[id]));
    }
  }

  /** Once a span has absorbed the mergeable neighbour on its left, nothing on its left is mergeable. */
  lemma LeftAbsorbed(aggressive: bool, spans: map<SpanId, Span>, a: SpanId, b: SpanId)
    requires a in spans && b in spans && a != b && End(spans[b]) == spans[a].start && 0 < spans[b].length
    requires Coalesced(aggressive, spans, {a}) && Mergeable(aggressive, spans[b], spans[a])
    ensures LeftDone(aggressive, (spans - {b})[a := Joined(spans[a], spans[b])], a)
  {
    var spans' := (spans - {b})[a := Joined(spans[a], spans[b])];
    forall x | x in spans' && x != a && End(spans'[x]) == spans'[a].start
      ensures !Mergeable(aggressive, spans'[x], spans'[a])
    {
      assert !Mergeable(aggressive, spans[x], spans[b]);
    }
  }

  lemma RightAbsorbed(aggressive: bool, spans: map<SpanId, Span>, a: SpanId, b: SpanId)
    requires a in spans && b in spans && a != b && End(spans[a]) == spans[b].start
    requires 0 < spans[b].length && 0 < spans[a].length
    requires Coalesced(aggressive, spans, {a}) && Mergeable(aggressive, spans[a], spans[b])
    ensures RightDone(aggressive, (spans - {b})[a := Joined(spans[a], spans[b])], a)
    ensures LeftDone(aggressive, spans, a) ==> LeftDone(aggressive, (spans - {b})[a := Joined(spans[a], spans[b])], a)
  {
    var spans' := (spans - {b})[a := Joined(spans[a], spans[b])];
    forall x | x in spans' && x != a && End(spans'[a]) == spans'[x].start
      ensures !Mergeable(aggressive, spans'[a], spans'[x])
    {
      assert !Mergeable(aggressive, spans[b], spans[x]);
    }
  }

  /** A span with nothing to merge on either side stops being an exception. */
  lemma BothDone(aggressive: bool, spans: map<SpanId, Span>, id: SpanId)
    requires id in spans && 0 < spans[id].length
    requires Coalesced(aggressive, spans, {id}) && LeftDone(aggressive, spans, id) && RightDone(aggressive, spans, id)
    ensures Coalesced(aggressive, spans, {})
  {
  }

  /** A floating free span changes location, or a span in use becomes a floating free one. */
  lemma RelabelOk(aggressive: bool, spans: map<SpanId, Span>, owner: map<nat, SpanId>, pagemap: map<nat, SpanId>,
                  nextId: SpanId, floating: set<SpanId>, id: SpanId, s: Span)
    requires SpansOk(aggressive, spans, owner, pagemap, nextId, floating) && id in spans && id in floating
    requires s.start == spans[id].start && s.length == spans[id].length && s.sizeclass == 0
    ensures SpansOk(aggressive, spans[id := s], owner, pagemap, nextId, floating)
  {
    RelabelTiles(spans, owner, id, s);
    RelabelMapped(spans, owner, pagemap, id, s);
  }

  /** A merged span goes on its list, in aggressive mode as either kind: nothing is left to merge. */
  lemma SettleOk(aggressive: bool, spans: map<SpanId, Span>, owner: map<nat, SpanId>, pagemap: map<nat, SpanId>,
                 nextId: SpanId, id: SpanId, loc: Location)
    requires SpansOk(aggressive, spans, owner, pagemap, nextId, {id}) && id in spans && Free(spans[id]) && loc != InUse
    requires LeftDone(aggressive, spans, id) && RightDone(aggressive, spans, id)
    requires aggressive || loc == spans[id].location
    ensures SpansOk(aggressive, spans[id := spans[id].(location := loc)], owner, pagemap, nextId, {})
    ensures Keeps(spans, owner, spans[id := spans[id].(location := loc)], owner)
  {
    var s := spans[id].(location := loc);
    RelabelKeeps(spans, owner, id, s);
    RelabelOk(aggressive, spans, owner, pagemap, nextId, {id}, id, s);
    BothDone(aggressive, spans[id := s], id);
  }

  /** A span in use is on no list, so it may as well float. */
  lemma UsedFloats(spans: map<SpanId, Span>, normal: seq<seq<SpanId>>, returned: seq<seq<SpanId>>, id: SpanId)
    requires ListsOk(spans, normal, returned, {}) && id in spans && spans[id].location == InUse
    ensures ListsOk(spans, normal, returned, {id})
  {
    FloatElsewhere(spans, normal, Normal, {}, id);
    FloatElsewhere(spans, returned, Returned, {}, id);
    assert {} + {id} == {id};
  }

  /** The span as Delete leaves it before merging. */
  function Freed(s: Span): Span {
    s.(location := Normal, sizeclass := 0)
  }

  /** Freeing a span in use makes it a floating free span. */
  lemma FreeOk(aggressive: bool, spans: map<SpanId, Span>, owner: map<nat, SpanId>, pagemap: map<nat, SpanId>,
               nextId: SpanId, normal: seq<seq<SpanId>>, returned: seq<seq<SpanId>>, id: SpanId)
    requires SpansOk(aggressive, spans, owner, pagemap, nextId, {}) && ListsOk(spans, normal, returned, {})
    requires id in spans && spans[id].location == InUse
    ensures var spans' := spans[id := Freed(spans[id])];
            && SpansOk(aggressive, spans', owner, pagemap, nextId, {id})
            && ListsOk(spans', normal, returned, {id})
            && TotalPages(spans', normal) == TotalPages(spans, normal)
            && TotalPages(spans', returned) == TotalPages(spans, returned)
  {
    FewerExceptions(aggressive, spans, owner, pagemap, nextId, {}, {id});
    RelabelOk(aggressive, spans, owner, pagemap, nextId, {id}, id, Freed(spans[id]));
    UsedFloats(spans, normal, returned, id);
    FloatersOk(spans, spans[id := Freed(spans[id])], normal, returned, {id}, {id});
  }

  /** Moving a floating span to the returned state. */
  lemma ReturnOk(aggressive: bool, spans: map<SpanId, Span>, owner: map<nat, SpanId>, pagemap: map<nat, SpanId>,
                 nextId: SpanId, normal: seq<seq<SpanId>>, returned: seq<seq<SpanId>>, id: SpanId)
    requires SpansOk(aggressive, spans, owner, pagemap, nextId, {id}) && ListsOk(spans, normal, returned, {id})
    requires id in spans && Free(spans[id])
    ensures var spans' := spans[id := spans[id].(location := Returned)];
            && SpansOk(aggressive, spans', owner, pagemap, nextId, {id})
            && ListsOk(spans', normal, returned, {id})
            && Keeps(spans, owner, spans', owner)
            && TotalPages(spans', normal) == TotalPages(spans, normal)
            && TotalPages(spans', returned) == TotalPages(spans, returned)
  {
    var s := spans[id].(location := Returned);
    RelabelOk(aggressive, spans, owner, pagemap, nextId, {id}, id, s);
    RelabelKeeps(spans, owner, id, s);
    FloatersOk(spans, spans[id := s], normal, returned, {id}, {id});
  }

  // ---------------------------------------------------------------- taking pages into use

  /**
   * Span id of exactly n pages has come into use out of free memory; every other span in use is
   * the same, and every page that was free and is not in the new span is still free.
   */
  ghost predicate Takes(spans: map<SpanId, Span>, owner: map<nat, SpanId>,
                        spans': map<SpanId, Span>, owner': map<nat, SpanId>, id: SpanId, n: nat) {
    && owner.Keys == owner'.Keys
    && id in spans' && spans'[id].location == InUse && spans'[id].length == n && spans'[id].sizeclass == 0
    && (forall p: nat :: Covers(spans'[id], p) ==> p in owner && owner[p] in spans && Free(spans[owner[p]]))
    && (forall x :: x in spans && !Free(spans[x]) ==> x != id && x in spans' && spans'[x] == spans[x])
    && (forall x :: x in spans' && !Free(spans'[x]) && x != id ==> x in spans && spans[x] == spans'[x])
    && (forall p :: p in owner && owner[p] in spans && Free(spans[owner[p]]) && !Covers(spans'[id], p) ==>
          owner'[p] in spans' && Free(spans'[owner'[p]]))
  }

  /** Rearranging free memory first does not change what taking a span means. */
  lemma KeepsTakes(s0: map<SpanId, Span>, o0: map<nat, SpanId>, s1: map<SpanId, Span>, o1: map<nat, SpanId>,
                   s2: map<SpanId, Span>, o2: map<nat, SpanId>, id: SpanId, n: nat)
    requires Tiles(s0, o0) && Tiles(s1, o1) && Keeps(s0, o0, s1, o1) && Takes(s1, o1, s2, o2, id, n)
    ensures Takes(s0, o0, s2, o2, id, n)
  {
    forall p: nat | Covers(s2[id], p) ensures p in o0 && o0[p] in s0 && Free(s0[o0[p]]) {
      assert p in o1 && Free(s1[o1[p]]);
      var x, y := o0[p], o1[p];
      assert Covers(s0[x], p) && Covers(s1[y], p);
      if !Free(s0[x]) {
        SpansDisjoint(s1, o1, x, y, p);
      }
    }
  }

  /** The front part of a carved span, in use. */
  function Front(s: Span, n: nat): Span {
    Span(s.start, n, InUse, 0)
  }

  /** The rest of a carved span, at the location the span had. */
  function Rest(s: Span, n: nat): Span
    requires n <= s.length
  {
    Span(s.start + n, s.length - n, s.location, 0)
  }

  /** Taking a whole free span into use. */
  lemma TakeWholeOk(aggressive: bool, spans: map<SpanId, Span>, owner: map<nat, SpanId>, pagemap: map<nat, SpanId>,
                    nextId: SpanId, id: SpanId)
    requires SpansOk(aggressive, spans, owner, pagemap, nextId, {}) && id in spans && Free(spans[id])
    ensures var spans' := spans[id := Front(spans[id], spans[id].length)];
            && SpansOk(aggressive, spans', owner, pagemap, nextId, {})
            && Takes(spans, owner, spans', owner, id, spans[id].length)
  {
    var s := Front(spans[id], spans[id].length);
    RelabelTiles(spans, owner, id, s);
    RelabelMapped(spans, owner, pagemap, id, s);
  }

  /**
   * Carving a free span keeps everything coalesced without a merge: what follows the rest
   * followed the whole span before, and was not mergeable with it.
   */
  lemma CarveOk(aggressive: bool, spans: map<SpanId, Span>, owner: map<nat, SpanId>, pagemap: map<nat, SpanId>,
                nextId: SpanId, id: SpanId, b: SpanId, n: nat)
    requires SpansOk(aggressive, spans, owner, pagemap, nextId, {}) && id in spans && Free(spans[id])
    requires b !in spans && b < nextId && 0 < n < spans[id].length
    ensures var (sa, sb) := (Front(spans[id], n), Rest(spans[id], n));
            var (spans', owner') := (spans[id := sa][b := sb], Cut(owner, id, b, spans[id].start + n));
            && SpansOk(aggressive, spans', owner', CutMap(pagemap, id, sa, b, sb), nextId, {})
            && Takes(spans, owner, spans', owner', id, n)
  {
    var sa, sb := Front(spans[id], n), Rest(spans[id], n);
    CutTiles(spans, owner, id, b, n, sa, sb);
    CutMapped(spans, owner, pagemap, id, b, n, sa, sb);
    CarveCoalesced(aggressive, spans, owner, id, b, n);
    CarveTakes(spans, owner, id, b, n);
  }

  lemma CarveCoalesced(aggressive: bool, spans: map<SpanId, Span>, owner: map<nat, SpanId>, id: SpanId, b: SpanId, n: nat)
    requires Tiles(spans, owner) && Coalesced(aggressive, spans, {}) && id in spans && b !in spans
    requires Free(spans[id]) && 0 < n < spans[id].length
    ensures Coalesced(aggressive, spans[id := Front(spans[id], n)][b := Rest(spans[id], n)], {})
  {
    var spans' := spans[id := Front(spans[id], n)][b := Rest(spans[id], n)];
    forall x, y | x in spans' && y in spans' && End(spans'[x]) == spans'[y].start
      ensures !Mergeable(aggressive, spans'[x], spans'[y])
    {
      if x == b && y != id && y != b {
        assert !Mergeable(aggressive, spans[id], spans[y]);
      } else if y == b && x != id && x != b {
        assert Covers(spans[x], End(spans[x]) - 1) && Covers(spans[id], End(spans[x]) - 1);
      }
    }
  }

  lemma CarveTakes(spans: map<SpanId, Span>, owner: map<nat, SpanId>, id: SpanId, b: SpanId, n: nat)
    requires Tiles(spans, owner) && id in spans && b !in spans && Free(spans[id]) && 0 < n < spans[id].length
    ensures Takes(spans, owner, spans[id := Front(spans[id], n)][b := Rest(spans[id], n)],
                  Cut(owner, id, b, spans[id].start + n), id, n)
  {
    var spans' := spans[id := Front(spans[id], n)][b := Rest(spans[id], n)];
    CutKeys(owner, id, b, spans[id].start + n);
    forall p: nat | Covers(spans'[id], p) ensures p in owner && owner[p] == id {
      assert Covers(spans[id], p);
    }
  }

  /** The lists when a removed span has become a used one and a floating rest. */
  lemma CarveLists(spans: map<SpanId, Span>, normal: seq<seq<SpanId>>, returned: seq<seq<SpanId>>,
                   id: SpanId, b: SpanId, sa: Span, sb: Span)
    requires ListsOk(spans, normal, returned, {id}) && id in spans && b !in spans && sa.location == InUse
    ensures var spans' := spans[id := sa][b := sb];
            && ListsOk(spans', normal, returned, {b})
            && TotalPages(spans', normal) == TotalPages(spans, normal)
            && TotalPages(spans', returned) == TotalPages(spans, returned)
  {
    var spans' := spans[id := sa][b := sb];
    FloatersOk(spans, spans', normal, returned, {id}, {id, b});
    FloatElsewhere(spans', normal, Normal, {id, b}, id);
    FloatElsewhere(spans', returned, Returned, {id, b}, id);
    assert {id, b} - {id} == {b};
  }

  lemma TakeWholeLists(spans: map<SpanId, Span>, normal: seq<seq<SpanId>>, returned: seq<seq<SpanId>>, id: SpanId, sa: Span)
    requires ListsOk(spans, normal, returned, {id}) && id in spans && sa.location == InUse
    ensures var spans' := spans[id := sa];
            && ListsOk(spans', normal, returned, {})
            && TotalPages(spans', normal) == TotalPages(spans, normal)
            && TotalPages(spans', returned) == TotalPages(spans, returned)
  {
    var spans' := spans[id := sa];
    FloatersOk(spans, spans', normal, returned, {id}, {id});
    FloatElsewhere(spans', normal, Normal, {id}, id);
    FloatElsewhere(spans', returned, Returned, {id}, id);
    assert {id} - {id} == {};
  }

  // ---------------------------------------------------------------- spans in use

  /** The same spans are in use, unchanged. */
  ghost predicate SameUse(spans: map<SpanId, Span>, spans': map<SpanId, Span>) {
    && (forall x :: x in spans && !Free(spans[x]) ==> x in spans' && spans'[x] == spans[x])
    && (forall x :: x in spans' && !Free(spans'[x]) ==> x in spans && spans[x] == spans'[x])
  }

  /** Exactly one more span is in use: id, with n pages. */
  ghost predicate OneMoreUsed(spans: map<SpanId, Span>, spans': map<SpanId, Span>, id: SpanId, n: nat) {
    && id in spans' && spans'[id].location == InUse && spans'[id].length == n && spans'[id].sizeclass == 0
    && (forall x :: x in spans && !Free(spans[x]) ==> x != id && x in spans' && spans'[x] == spans[x])
    && (forall x :: x in spans' && !Free(spans'[x]) && x != id ==> x in spans && spans[x] == spans'[x])
  }

  lemma KeepsUse(s0: map<SpanId, Span>, o0: map<nat, SpanId>, s1: map<SpanId, Span>, o1: map<nat, SpanId>)
    requires Keeps(s0, o0, s1, o1)
    ensures SameUse(s0, s1)
  {
  }

  lemma SameUseTrans(s0: map<SpanId, Span>, s1: map<SpanId, Span>, s2: map<SpanId, Span>)
    requires SameUse(s0, s1) && SameUse(s1, s2)
    ensures SameUse(s0, s2)
  {
  }

  lemma TakesUse(s0: map<SpanId, Span>, s1: map<SpanId, Span>, o1: map<nat, SpanId>,
                 s2: map<SpanId, Span>, o2: map<nat, SpanId>, id: SpanId, n: nat)
    requires SameUse(s0, s1) && Takes(s1, o1, s2, o2, id, n)
    ensures OneMoreUsed(s0, s2, id, n)
  {
  }

  /** Cutting a span in use into two spans in use. */
  lemma SplitOk(aggressive: bool, spans: map<SpanId, Span>, owner: map<nat, SpanId>, pagemap: map<nat, SpanId>,
                nextId: SpanId, id: SpanId, b: SpanId, n: nat)
    requires SpansOk(aggressive, spans, owner, pagemap, nextId, {}) && id in spans && spans[id].location == InUse
    requires b !in spans && b < nextId && 0 < n < spans[id].length
    ensures var (sa, sb) := (Front(spans[id], n), Rest(spans[id], n));
            SpansOk(aggressive, spans[id := sa][b := sb], Cut(owner, id, b, spans[id].start + n),
                    CutMap(pagemap, id, sa, b, sb), nextId, {})
  {
    var sa, sb := Front(spans[id], n), Rest(spans[id], n);
    CutTiles(spans, owner, id, b, n, sa, sb);
    CutMapped(spans, owner, pagemap, id, b, n, sa, sb);
  }

  lemma SplitLists(spans: map<SpanId, Span>, normal: seq<seq<SpanId>>, returned: seq<seq<SpanId>>,
                   id: SpanId, b: SpanId, sa: Span, sb: Span)
    requires ListsOk(spans, normal, returned, {}) && id in spans && b !in spans
    requires spans[id].location == InUse && sa.location == InUse && sb.location == InUse
    ensures var spans' := spans[id := sa][b := sb];
            && ListsOk(spans', normal, returned, {})
            && TotalPages(spans', normal) == TotalPages(spans, normal)
            && TotalPages(spans', returned) == TotalPages(spans, returned)
  {
    var spans' := spans[id := sa][b := sb];
    UsedFloats(spans, normal, returned, id);
    CarveLists(spans, normal, returned, id, b, sa, sb);
    FloatElsewhere(spans', normal, Normal, {b}, b);
    FloatElsewhere(spans', returned, Returned, {b}, b);
    assert {b} - {b} == {};
  }

  /** Recording a fresh region as one span in use. */
  lemma ClaimOk(aggressive: bool, spans: map<SpanId, Span>, owner: map<nat, SpanId>, pagemap: map<nat, SpanId>,
                nextId: SpanId, normal: seq<seq<SpanId>>, returned: seq<seq<SpanId>>, id: SpanId, s: Span)
    requires SpansOk(aggressive, spans, owner, pagemap, nextId, {}) && ListsOk(spans, normal, returned, {})
    requires id !in spans && id < nextId && 0 < s.start && 0 < s.length && s.location == InUse && s.sizeclass == 0
    requires forall x :: x in spans ==> End(spans[x]) <= s.start || End(s) <= spans[x].start
    ensures var spans' := spans[id := s];
            && SpansOk(aggressive, spans', Claim(owner, id, s), Record(pagemap, id, s), nextId, {})
            && ListsOk(spans', normal, returned, {})
            && TotalPages(spans', normal) == TotalPages(spans, normal)
            && TotalPages(spans', returned) == TotalPages(spans, returned)
  {
    hide ListsOk, TotalPages, Mapped, Tiles, Claim, Record;
    ClaimApart(spans, owner, s);
    ClaimTiles(spans, owner, id, s);
    ClaimMapped(spans, owner, pagemap, id, s);
    ClaimLists(spans, normal, returned, id, s);
  }

  lemma ClaimApart(spans: map<SpanId, Span>, owner: map<nat, SpanId>, s: Span)
    requires Tiles(spans, owner) && forall x :: x in spans ==> End(spans[x]) <= s.start || End(s) <= spans[x].start
    ensures forall p :: p in owner ==> !Covers(s, p)
  {
    forall p | p in owner ensures !Covers(s, p) {
      assert Covers(spans[owner[p]], p);
    }
  }

  lemma ClaimLists(spans: map<SpanId, Span>, normal: seq<seq<SpanId>>, returned: seq<seq<SpanId>>, id: SpanId, s: Span)
    requires ListsOk(spans, normal, returned, {}) && id !in spans && s.location == InUse
    ensures var spans' := spans[id := s];
            && ListsOk(spans', normal, returned, {})
            && TotalPages(spans', normal) == TotalPages(spans, normal)
            && TotalPages(spans', returned) == TotalPages(spans, returned)
  {
    var spans' := spans[id := s];
    FloatersOk(spans, spans', normal, returned, {}, {id});
    FloatElsewhere(spans', normal, Normal, {id}, id);
    FloatElsewhere(spans', returned, Returned, {id}, id);
    assert {id} - {id} == {};
  }

  /** The page map with every page of a span written to name it. */
  ghost predicate FilledFor(pagemap: map<nat, SpanId>, pagemap': map<nat, SpanId>, id: SpanId, s: Span) {
    && (forall p: nat {:trigger Covers(s, p)} :: Covers(s, p) ==> p in pagemap' && pagemap'[p] == id)
    && (forall p: nat {:trigger p in pagemap'} {:trigger pagemap'[p]} :: !Covers(s, p) ==>
          (p in pagemap' <==> p in pagemap) && (p in pagemap' ==> pagemap'[p] == pagemap[p]))
  }

  /** The loop of RegisterSizeClass: the ends are right already, so it writes the pages between. */
  method FillInterior(pagemap: map<nat, SpanId>, id: SpanId, s: Span) returns (pagemap': map<nat, SpanId>)
    requires MappedAt(pagemap, id, s)
    ensures FilledFor(pagemap, pagemap', id, s)
  {
    pagemap' := pagemap;
    var i := 1;
    while i < s.length - 1
      invariant 1 <= i && (i == 1 || i <= s.length - 1)
      invariant forall p: nat :: s.start <= p < s.start + i ==> p in pagemap' && pagemap'[p] == id
      invariant End(s) - 1 in pagemap' && pagemap'[End(s) - 1] == id
      invariant forall p: nat {:trigger p in pagemap'} {:trigger pagemap'[p]} :: !Covers(s, p) ==>
                  (p in pagemap' <==> p in pagemap) && (p in pagemap' ==> pagemap'[p] == pagemap[p])
    {
      assert Covers(s, s.start + i);
      pagemap' := pagemap'[s.start + i := id];
      i := i + 1;
    }
    forall p: nat | Covers(s, p) ensures p in pagemap' && pagemap'[p] == id {
      assert p < s.start + i || p == End(s) - 1;
    }
  }

  lemma MappedAtSame(pagemap: map<nat, SpanId>, pagemap': map<nat, SpanId>, x: SpanId, s: Span)
    requires MappedAt(pagemap, x, s)
    requires forall p: nat {:trigger Covers(s, p)} :: Covers(s, p) && p in pagemap ==> p in pagemap' && pagemap'[p] == pagemap[p]
    ensures MappedAt(pagemap', x, s)
  {
    assert Covers(s, s.start) && Covers(s, End(s) - 1);
  }

  /** What is promised about other spans survives the registration of one. */
  lemma RegisterElsewhere(spans: map<SpanId, Span>, owner: map<nat, SpanId>, pagemap: map<nat, SpanId>,
                          pagemap': map<nat, SpanId>, id: SpanId, x: SpanId)
    requires Tiles(spans, owner) && id in spans && x in spans && x != id && MappedAt(pagemap, x, spans[x])
    requires FilledFor(pagemap, pagemap', id, spans[id])
    ensures MappedAt(pagemap', x, spans[x])
  {
    forall p: nat | Covers(spans[x], p) && p in pagemap ensures p in pagemap' && pagemap'[p] == pagemap[p] {
      Outside(spans, owner, x, id, p);
    }
    MappedAtSame(pagemap, pagemap', x, spans[x]);
  }

  lemma FilledKeys(spans: map<SpanId, Span>, owner: map<nat, SpanId>, pagemap: map<nat, SpanId>,
                   pagemap': map<nat, SpanId>, id: SpanId)
    requires Tiles(spans, owner) && id in spans && pagemap.Keys <= owner.Keys
    requires FilledFor(pagemap, pagemap', id, spans[id])
    ensures pagemap'.Keys <= owner.Keys
  {
    forall p | p in pagemap' ensures p in owner {
      if Covers(spans[id], p) {
      } else {
        assert p in pagemap;
      }
    }
  }

  /** Writing every page of a span into the page map, and nothing else, registers it. */
  lemma RegisterOk(aggressive: bool, spans: map<SpanId, Span>, owner: map<nat, SpanId>, pagemap: map<nat, SpanId>,
                   pagemap': map<nat, SpanId>, nextId: SpanId, id: SpanId, sizeclass: nat)
    requires SpansOk(aggressive, spans, owner, pagemap, nextId, {}) && id in spans && spans[id].location == InUse
    requires FilledFor(pagemap, pagemap', id, spans[id])
    ensures SpansOk(aggressive, spans[id := spans[id].(sizeclass := sizeclass)], owner, pagemap', nextId, {})
  {
    hide FilledFor, MappedAt;
    var s := spans[id].(sizeclass := sizeclass);
    var spans' := spans[id := s];
    RelabelTiles(spans, owner, id, s);
    FilledKeys(spans, owner, pagemap, pagemap', id);
    forall x | x in spans' ensures MappedAt(pagemap', x, spans'[x]) {
      if x == id {
        FilledMaps(pagemap, pagemap', id, spans[id], sizeclass);
      } else {
        assert MappedAt(pagemap, x, spans[x]);
        RegisterElsewhere(spans, owner, pagemap, pagemap', id, x);
      }
    }
    MappedFrom(spans', owner, pagemap');
  }

  lemma FilledMaps(pagemap: map<nat, SpanId>, pagemap': map<nat, SpanId>, id: SpanId, s: Span, sizeclass: nat)
    requires FilledFor(pagemap, pagemap', id, s) && 0 < s.length
    ensures MappedAt(pagemap', id, s.(sizeclass := sizeclass))
  {
    var t := s.(sizeclass := sizeclass);
    assert Covers(s, s.start) && Covers(s, End(s) - 1);
    forall p: nat | Covers(t, p) ensures p in pagemap' && pagemap'[p] == id {
      assert Covers(s, p);
    }
  }

  lemma RegisterLists(spans: map<SpanId, Span>, normal: seq<seq<SpanId>>, returned: seq<seq<SpanId>>,
                      id: SpanId, sizeclass: nat)
    requires ListsOk(spans, normal, returned, {}) && id in spans && spans[id].location == InUse
    ensures var spans' := spans[id := spans[id].(sizeclass := sizeclass)];
            && ListsOk(spans', normal, returned, {})
            && TotalPages(spans', normal) == TotalPages(spans, normal)
            && TotalPages(spans', returned) == TotalPages(spans, returned)
  {
    UsedFloats(spans, normal, returned, id);
    TakeWholeLists(spans, normal, returned, id, spans[id].(sizeclass := sizeclass));
  }
}
