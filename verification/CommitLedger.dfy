/** The commit accounting of the page heap on its own: what a merge does to the four counters. */
module CommitLedger {
  import opened SpanLayout

  datatype Ledger = Ledger(system: int, free: int, unmapped: int, committed: int)

  datatype Neighbour = NoneMerged | Merged(span: Span)

  /** Bytes by which unmapped plus committed falls short of system. */
  function Deficit(l: Ledger): int {
    l.system - l.unmapped - l.committed
  }

  function BytesOf(n: Neighbour, loc: Location): nat {
    if n.Merged? then PAGE * PagesAt(loc, n.span) else 0
  }

  function LengthOf(n: Neighbour): nat {
    if n.Merged? then n.span.length else 0
  }

  /** The bytes that temp_committed collects: decommitted neighbours merged in aggressive mode. */
  function Temp(aggressive: bool, prev: Neighbour, next: Neighbour): nat {
    if aggressive then BytesOf(prev, Returned) + BytesOf(next, Returned) else 0
  }

  /** Where the merged span ends up. */
  function FinalLocation(aggressive: bool, released: bool, s: Span): Location {
    if aggressive && released then Returned else s.location
  }

  /** MergeIntoFreeList on the counters, for any outcome of the release it attempts. */
  function MergeLedger(aggressive: bool, released: bool, l: Ledger, s: Span, prev: Neighbour, next: Neighbour): Ledger {
    var total := PAGE * (s.length + LengthOf(prev) + LengthOf(next));
    var free := l.free - BytesOf(prev, Normal) - BytesOf(next, Normal);
    var unmapped := l.unmapped - BytesOf(prev, Returned) - BytesOf(next, Returned);
    var committed := if aggressive && released then l.committed - total + Temp(aggressive, prev, next) else l.committed;
    if FinalLocation(aggressive, released, s) == Normal then Ledger(l.system, free + total, unmapped, committed)
    else Ledger(l.system, free, unmapped + total, committed)
  }

  /** Only like spans merge outside aggressive mode; free ones in either. */
  predicate MayMerge(aggressive: bool, s: Span, n: Neighbour) {
    n.Merged? ==> Free(n.span) && (aggressive || n.span.location == s.location)
  }

  /**
   * How far a merge moves the deficit, for every mode, outcome and kind of span. An aggressive
   * release that works leaves it alone; without one, a committed span loses its decommitted
   * neighbours, and a decommitted one settles its own bytes and those of committed neighbours.
   */
  lemma MergeDeficit(aggressive: bool, released: bool, l: Ledger, s: Span, prev: Neighbour, next: Neighbour)
    requires Free(s) && MayMerge(aggressive, s, prev) && MayMerge(aggressive, s, next)
    ensures Deficit(MergeLedger(aggressive, released, l, s, prev, next)) == Deficit(l) +
            if aggressive && released then 0
            else if s.location == Normal then Temp(aggressive, prev, next)
            else -(PAGE * s.length) - BytesOf(prev, Normal) - BytesOf(next, Normal)
  {
  }

  /** Freeing a span keeps the books balanced iff no decommitted neighbour meets a refused release. */
  lemma MergeBalancedIff(aggressive: bool, released: bool, l: Ledger, s: Span, prev: Neighbour, next: Neighbour)
    requires s.location == Normal && MayMerge(aggressive, s, prev) && MayMerge(aggressive, s, next)
    requires Deficit(l) == 0
    ensures Deficit(MergeLedger(aggressive, released, l, s, prev, next)) == 0 <==>
            (aggressive && !released ==> BytesOf(prev, Returned) + BytesOf(next, Returned) == 0)
  {
    MergeDeficit(aggressive, released, l, s, prev, next);
  }
}
