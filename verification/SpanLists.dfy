/** The circular doubly linked lists of spans: the link updates in place refine sequence operations. */
module SpanLists {

  class Span {
    var next: Span?
    var prev: Span?

    constructor ()
      ensures next == null && prev == null
    {
      next, prev := null, null;
    }
  }

  /** The i-th node of the cycle that starts and ends at the header. */
  function Node(h: Span, s: seq<Span>, i: nat): Span
    requires i <= |s| + 1
  {
    if i == 0 || i == |s| + 1 then h else s[i - 1]
  }

  ghost predicate Linked(h: Span, s: seq<Span>, i: nat)
    requires i <= |s|
    reads h, s
  {
    Node(h, s, i).next == Node(h, s, i + 1) && Node(h, s, i + 1).prev == Node(h, s, i)
  }

  /** The header and the spans of the sequence, each once, form a cycle in this order. */
  ghost predicate Ring(h: Span, s: seq<Span>)
    reads h, s
  {
    && h !in s && (forall i, j :: 0 <= i < j < |s| ==> s[i] != s[j])
    && forall i :: 0 <= i <= |s| ==> Linked(h, s, i)
  }

  method Init(list: Span)
    modifies list
    ensures Ring(list, [])
  {
    list.next := list;
    list.prev := list;
  }

  method IsEmpty(list: Span, ghost s: seq<Span>) returns (empty: bool)
    requires Ring(list, s)
    ensures empty <==> s == []
  {
    assert Linked(list, s, 0);
    empty := list.next == list;
  }

  /** Takes a span out of whatever list it is on; the list keeps its order. */
  method Remove(span: Span, ghost h: Span, ghost s: seq<Span>, ghost j: nat)
    requires Ring(h, s) && j < |s| && s[j] == span
    modifies span, span.prev, span.next
    ensures Ring(h, s[..j] + s[j + 1..]) && span.next == null && span.prev == null
  {
    assert Linked(h, s, j) && Linked(h, s, j + 1);
    ghost var t := s[..j] + s[j + 1..];
    assert forall i :: 0 <= i <= |s| && i != j && i != j + 1 ==> Linked(h, s, i);
    span.prev.next := span.next;
    span.next.prev := span.prev;
    span.prev := null;
    span.next := null;
    forall i | 0 <= i <= |t| ensures Linked(h, t, i) {
      if i < j {
        assert old(Linked(h, s, i));
      } else if i > j {
        assert old(Linked(h, s, i + 1));
      }
    }
  }

  method Prepend(list: Span, span: Span, ghost s: seq<Span>)
    requires Ring(list, s) && span != list && span !in s && span.next == null && span.prev == null
    modifies list, list.next, span
    ensures Ring(list, [span] + s)
  {
    ghost var t := [span] + s;
    assert Linked(list, s, 0);
    span.next := list.next;
    span.prev := list;
    list.next.prev := span;
    list.next := span;
    forall i | 0 <= i <= |t| ensures Linked(list, t, i) {
      if i > 1 {
        assert old(Linked(list, s, i - 1));
      }
    }
  }

  method Length(list: Span, ghost s: seq<Span>) returns (result: nat)
    requires Ring(list, s)
    ensures result == |s|
  {
    result := 0;
    assert Linked(list, s, 0);
    var at := list.next;
    while at != list
      invariant result <= |s| && at == Node(list, s, result + 1)
      decreases |s| - result
    {
      assert Linked(list, s, result + 1);
      at := at.next;
      result := result + 1;
    }
  }
}
