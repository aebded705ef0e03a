/** The singly linked lists threaded through free objects: address 0 ends a list. */
module ObjectLists {

  /** Following the next words from head visits exactly these addresses, in this order. */
  predicate IsList(next: map<nat, nat>, head: nat, s: seq<nat>)
    decreases |s|
  {
    if s == [] then head == 0
    else head != 0 && head == s[0] && head in next && IsList(next, next[head], s[1..])
  }

  predicate Distinct(s: seq<nat>) {
    forall i, j :: 0 <= i < j < |s| ==> s[i] != s[j]
  }

  /** A write to an address that is not on the list does not change the list. */
  lemma {:induction false} Unaffected(next: map<nat, nat>, head: nat, s: seq<nat>, a: nat, v: nat)
    requires IsList(next, head, s) && a !in s
    ensures IsList(next[a := v], head, s)
    decreases |s|
  {
    if s != [] {
      Unaffected(next, next[head], s[1..], a, v);
    }
  }

  /** The list from the n-th element on. */
  lemma {:induction false} Suffix(next: map<nat, nat>, head: nat, s: seq<nat>, n: nat)
    requires IsList(next, head, s) && n < |s|
    ensures s[n] in next && s[n] != 0 && IsList(next, s[n], s[n..]) && IsList(next, next[s[n]], s[n + 1..])
    decreases n
  {
    if n != 0 {
      Suffix(next, next[head], s[1..], n - 1);
      assert s[1..][n - 1..] == s[n..] && s[1..][n..] == s[n + 1..];
    }
  }

  /** Redirecting the last word of a list appends the list it then points to. */
  lemma {:induction false} Joined(next: map<nat, nat>, head: nat, a: seq<nat>, tail: nat, b: seq<nat>)
    requires IsList(next, head, a) && a != [] && Distinct(a)
    requires IsList(next, tail, b) && a[|a| - 1] !in b
    ensures IsList(next[a[|a| - 1] := tail], head, a + b)
    decreases |a|
  {
    var last := a[|a| - 1];
    if |a| == 1 {
      Unaffected(next, tail, b, last, tail);
      assert (a + b)[1..] == b;
    } else {
      Joined(next, next[head], a[1..], tail, b);
      assert a[1..][|a| - 2] == last && (a + b)[1..] == a[1..] + b;
      assert head != last;
    }
  }

  /** Ending a list early keeps its first elements. */
  lemma {:induction false} Cut(next: map<nat, nat>, head: nat, s: seq<nat>, n: nat)
    requires IsList(next, head, s) && Distinct(s) && 0 < n <= |s|
    ensures IsList(next[s[n - 1] := 0], head, s[..n])
    decreases n
  {
    if n == 1 {
      assert s[..1][1..] == [];
    } else {
      Cut(next, next[head], s[1..], n - 1);
      assert s[..n][1..] == s[1..][..n - 1];
      assert head != s[n - 1];
    }
  }

  class Words {
    var next: map<nat, nat>

    /** SLL_PopRange: the first n elements become a list of their own. */
    method PopRange(head: nat, n: nat, ghost s: seq<nat>) returns (head': nat, start: nat, end: nat)
      requires IsList(next, head, s) && Distinct(s) && n <= |s|
      modifies this
      ensures IsList(next, start, s[..n]) && IsList(next, head', s[n..])
      ensures n != 0 ==> end == s[n - 1] && start == head && end in old(next) && head' == old(next)[end]
      ensures n != 0 ==> next == old(next)[end := 0]
      ensures n == 0 ==> end == 0 && unchanged(this)
    {
      if n == 0 {
        assert s[0..] == s;
        return head, 0, 0;
      }
      var tmp := head;
      for i := 1 to n
        invariant tmp == s[i - 1] && next == old(next)
      {
        Suffix(next, head, s, i - 1);
        Suffix(next, head, s, i);
        tmp := next[tmp];
      }
      Suffix(next, head, s, n - 1);
      Cut(next, head, s, n);
      start, end, head' := head, tmp, next[tmp];
      assert tmp !in s[n..] by {
        forall i | n <= i < |s| ensures s[i] != tmp {
        }
      }
      Unaffected(next, head', s[n..], tmp, 0);
      next := next[tmp := 0];
    }

    /** SLL_PushRange: a whole list goes in front of another. */
    method PushRange(head: nat, start: nat, end: nat, ghost a: seq<nat>, ghost s: seq<nat>) returns (head': nat)
      requires IsList(next, head, s) && IsList(next, start, a) && Distinct(a)
      requires a != [] ==> end == a[|a| - 1] && end !in s
      modifies this
      ensures IsList(next, head', a + s)
      ensures next == if a == [] then old(next) else old(next)[end := head]
    {
      if start == 0 {
        assert a + s == s;
        return head;
      }
      Joined(next, start, a, head, s);
      next := next[end := head];
      head' := start;
    }

    method Size(head: nat, ghost s: seq<nat>) returns (count: nat)
      requires IsList(next, head, s)
      ensures count == |s|
    {
      count := 0;
      var at := head;
      while at != 0
        invariant count <= |s| && IsList(next, at, s[count..])
        decreases |s| - count
      {
        assert s[count..][1..] == s[count + 1..];
        at := next[at];
        count := count + 1;
      }
    }
  }
}
