/**
 * The three-level radix map from page numbers to span pointers, for every key width: it refines a
 * flat map. Pointers are numbers, 0 is NULL; shifts and masks are divisions by powers of two.
 */
module PageMap3 {
  import opened Collections
  import Partition

  /** One more than the largest Number. */
  const WORD_SIZE: nat := Pow2(64)

  function Pow2(n: nat): (p: nat)
    ensures 0 < p
  {
    if n == 0 then 1 else 2 * Pow2(n - 1)
  }

  lemma {:induction false} Pow2Adds(a: nat, b: nat)
    ensures Pow2(a + b) == Pow2(a) * Pow2(b)
  {
    if a != 0 {
      Pow2Adds(a - 1, b);
      assert Pow2(a + b) == 2 * (Pow2(a - 1) * Pow2(b));
    }
  }

  lemma {:induction false} Pow2Grows(a: nat, b: nat)
    requires a <= b
    ensures Pow2(a) <= Pow2(b)
  {
    if a < b {
      Pow2Grows(a, b - 1);
    }
  }

  // ---------------------------------------------------------------- the shape for a key width

  function InteriorBits(bits: nat): nat {
    (bits + 2) / 3
  }

  /** The widths the three levels add up to. */
  predicate WidthOk(bits: nat) {
    2 * InteriorBits(bits) <= bits < 64
  }

  /** Entries of an interior node and of a leaf. */
  datatype Shape = Shape(inner: nat, leaf: nat)

  function ShapeOf(bits: nat): (h: Shape)
    requires WidthOk(bits)
    ensures 0 < h.inner && 0 < h.leaf
  {
    Shape(Pow2(InteriorBits(bits)), Pow2(bits - 2 * InteriorBits(bits)))
  }

  /** The three levels cover exactly the keys of the width. */
  lemma ShapeCovers(bits: nat)
    requires WidthOk(bits)
    ensures var h := ShapeOf(bits); Pow2(bits) == h.inner * (h.inner * h.leaf)
  {
    hide Pow2;
    var i := InteriorBits(bits);
    ThreeLevels(i, bits - 2 * i, bits);
  }

  lemma ThreeLevels(i: nat, l: nat, bits: nat)
    requires bits == i + (i + l)
    ensures Pow2(bits) == Pow2(i) * (Pow2(i) * Pow2(l))
  {
    hide Pow2;
    Pow2Adds(i, l);
    Pow2Adds(i, i + l);
  }

  lemma KeysFitWord(bits: nat)
    requires WidthOk(bits)
    ensures 2 * Pow2(bits) <= WORD_SIZE
  {
    Pow2Grows(bits, 63);
    assert Pow2(64) == 2 * Pow2(63);
  }

  function I1(h: Shape, k: nat): nat
    requires 0 < h.inner && 0 < h.leaf
  {
    k / (h.inner * h.leaf)
  }

  function I2(h: Shape, k: nat): (i: nat)
    requires 0 < h.inner && 0 < h.leaf
    ensures i < h.inner
  {
    k / h.leaf % h.inner
  }

  function I3(h: Shape, k: nat): (i: nat)
    requires 0 < h.leaf
    ensures i < h.leaf
  {
    k % h.leaf
  }

  /** Keys of one leaf share all indices but the last. */
  lemma SameLeaf(h: Shape, k: nat, j: nat)
    requires 0 < h.inner && 0 < h.leaf && k / h.leaf == j / h.leaf
    ensures I1(h, k) == I1(h, j) && I2(h, k) == I2(h, j)
  {
    Partition.DivDiv(k, h.leaf, h.inner);
    Partition.DivDiv(j, h.leaf, h.inner);
  }

  /** Only a key itself has its three indices. */
  lemma IndicesDetermine(h: Shape, k: nat, j: nat)
    requires 0 < h.inner && 0 < h.leaf
    requires I1(h, k) == I1(h, j) && I2(h, k) == I2(h, j)
    ensures k / h.leaf == j / h.leaf && (I3(h, k) == I3(h, j) ==> k == j)
  {
    Partition.DivDiv(k, h.leaf, h.inner);
    Partition.DivDiv(j, h.leaf, h.inner);
    DivMod(k / h.leaf, h.inner);
    DivMod(j / h.leaf, h.inner);
    DivMod(k, h.leaf);
    DivMod(j, h.leaf);
  }

  lemma DivMod(x: nat, r: nat)
    requires 0 < r
    ensures x == x / r * r + x % r
  {
  }

  lemma TopInRange(h: Shape, k: nat)
    requires 0 < h.inner && 0 < h.leaf
    ensures 0 < h.inner * h.leaf
    ensures I1(h, k) < h.inner <==> k < h.inner * (h.inner * h.leaf)
  {
    var w := h.inner * h.leaf;
    Partition.MulLe(1, h.inner, h.leaf);
    Partition.DivBounds(k, w);
    if k < h.inner * w {
      Partition.OwnerInRange(h.inner, w, k);
    } else if k / w < h.inner {
      Partition.MulLe(k / w + 1, h.inner, w);
    }
  }

  /** The top index is in range exactly for the keys of the width. */
  lemma InRange(bits: nat, k: nat)
    requires WidthOk(bits)
    ensures k / Pow2(bits) > 0 <==> Pow2(bits) <= k
    ensures I1(ShapeOf(bits), k) < ShapeOf(bits).inner <==> k < Pow2(bits)
  {
    hide Pow2, I1, ShapeOf;
    ShapeCovers(bits);
    TopInRange(ShapeOf(bits), k);
    QuotientIsZero(k, Pow2(bits));
  }

  lemma QuotientIsZero(k: nat, r: nat)
    requires 0 < r
    ensures k / r > 0 <==> r <= k
  {
    if k < r {
      Partition.DivIs(k, r, 0);
    } else if k / r == 0 {
      Partition.DivBounds(k, r);
    }
  }

  /** The first key after the block of r keys that holds k; the block's keys have the same quotient. */
  function BlockEnd(k: nat, r: nat): (e: nat)
    requires 0 < r
  {
    (k / r + 1) * r
  }

  lemma InBlock(k: nat, r: nat)
    requires 0 < r
    ensures k < BlockEnd(k, r) <= k + r
    ensures forall j: nat {:trigger j / r} :: k <= j < BlockEnd(k, r) ==> j / r == k / r
  {
    hide BlockEnd;
    BlockBounds(k, r, k / r);
    forall j: nat | k <= j < BlockEnd(k, r) ensures j / r == k / r {
      SameBlock(k, r, j);
    }
  }

  lemma BlockBounds(k: nat, r: nat, q: nat)
    requires 0 < r && q == k / r
    ensures q * r <= k < q * r + r && BlockEnd(k, r) == q * r + r
  {
    Partition.DivBounds(k, r);
    Distribute(q, r);
  }

  lemma Distribute(q: nat, r: nat)
    ensures (q + 1) * r == q * r + r
  {
  }

  lemma SameBlock(k: nat, r: nat, j: nat)
    requires 0 < r && k <= j < BlockEnd(k, r)
    ensures j / r == k / r
  {
    hide BlockEnd;
    var q := k / r;
    BlockBounds(k, r, q);
    Partition.DivIs(j, r, q);
  }

  /** A block that starts below a multiple of its size ends there at the latest. */
  lemma BlockEndBelow(k: nat, r: nat, n: nat)
    requires 0 < r && k < n * r
    ensures BlockEnd(k, r) <= n * r
  {
    Partition.OwnerInRange(n, r, k);
    Partition.MulLe(k / r + 1, n, r);
  }

  // ---------------------------------------------------------------- the tree

  type Leaf = seq<nat>
  type Node = seq<Option<Leaf>>
  type Root = seq<Option<Node>>

  predicate WellShaped(h: Shape, root: Root) {
    && |root| == h.inner
    && (forall i :: 0 <= i < |root| && root[i].Some? ==> NodeShaped(h, root[i].value))
  }

  predicate NodeShaped(h: Shape, node: Node) {
    |node| == h.inner && forall i :: 0 <= i < |node| && node[i].Some? ==> |node[i].value| == h.leaf
  }

  predicate HasLeaf(h: Shape, root: Root, k: nat)
    requires 0 < h.inner && 0 < h.leaf && WellShaped(h, root)
  {
    I1(h, k) < h.inner && root[I1(h, k)].Some? && root[I1(h, k)].value[I2(h, k)].Some?
  }

  /** What get returns. */
  function Get(h: Shape, root: Root, k: nat): nat
    requires 0 < h.inner && 0 < h.leaf && WellShaped(h, root)
  {
    if HasLeaf(h, root, k) then root[I1(h, k)].value[I2(h, k)].value[I3(h, k)] else 0
  }

  /** Replaces one leaf. */
  function PutLeaf(h: Shape, root: Root, k: nat, leaf: Leaf): Root
    requires 0 < h.inner && 0 < h.leaf && WellShaped(h, root) && I1(h, k) < h.inner && root[I1(h, k)].Some?
  {
    root[I1(h, k) := Some(root[I1(h, k)].value[I2(h, k) := Some(leaf)])]
  }

  lemma PutLeafShaped(h: Shape, root: Root, k: nat, leaf: Leaf)
    requires 0 < h.inner && 0 < h.leaf && WellShaped(h, root) && I1(h, k) < h.inner && root[I1(h, k)].Some?
    requires |leaf| == h.leaf
    ensures WellShaped(h, PutLeaf(h, root, k, leaf))
    ensures HasLeaf(h, PutLeaf(h, root, k, leaf), k)
  {
  }

  /** Only the keys of the replaced leaf see a change. */
  lemma PutLeafGets(h: Shape, root: Root, k: nat, leaf: Leaf, j: nat)
    requires 0 < h.inner && 0 < h.leaf && WellShaped(h, root) && I1(h, k) < h.inner && root[I1(h, k)].Some?
    requires |leaf| == h.leaf
    ensures WellShaped(h, PutLeaf(h, root, k, leaf))
    ensures Get(h, PutLeaf(h, root, k, leaf), j) == if j / h.leaf == k / h.leaf then leaf[I3(h, j)] else Get(h, root, j)
    ensures HasLeaf(h, root, j) ==> HasLeaf(h, PutLeaf(h, root, k, leaf), j)
  {
    PutLeafShaped(h, root, k, leaf);
    if j / h.leaf == k / h.leaf {
      SameLeaf(h, j, k);
    } else if I1(h, j) == I1(h, k) && I2(h, j) == I2(h, k) {
      IndicesDetermine(h, j, k);
    }
  }

  // ---------------------------------------------------------------- the map

  function Value(m: map<nat, nat>, k: nat): nat {
    if k in m then m[k] else 0
  }

  /** The last key Ensure looks at: start + n - 1 in Number arithmetic. */
  function Last(start: nat, n: nat): (k: nat)
    ensures k < WORD_SIZE
  {
    (start + n + WORD_SIZE - 1) % WORD_SIZE
  }

  class PageMap {
    const bits: nat
    const h: Shape
    const grants: nat -> bool        // whether the i-th request for memory succeeds
    var root: Root
    var requests: nat
    ghost var contents: map<nat, nat>

    ghost predicate Valid()
      reads this
    {
      && WidthOk(bits) && h == ShapeOf(bits) && WellShaped(h, root)
      && (forall k :: k in contents ==> k < Pow2(bits))
      && (forall k: nat :: Get(h, root, k) == Value(contents, k))
    }

    constructor (bits: nat, grants: nat -> bool)
      requires WidthOk(bits)
      ensures Valid() && this.bits == bits && this.grants == grants && contents == map[]
    {
      this.bits, this.grants, requests := bits, grants, 0;
      h := ShapeOf(bits);
      root := seq(ShapeOf(bits).inner, _ => None);
      contents := map[];
    }

    method Fetch(k: nat) returns (v: nat)
      requires Valid()
      ensures v == Value(contents, k)
    {
      hide Pow2, I1, I2, I3, ShapeOf;
      var i1, i2, i3 := I1(h, k), I2(h, k), I3(h, k);
      InRange(bits, k);
      if k / Pow2(bits) > 0 || root[i1].None? || root[i1].value[i2].None? {
        v := 0;
      } else {
        v := root[i1].value[i2].value[i3];
      }
      assert Get(h, root, k) == v;
    }

    method Set(k: nat, v: nat)
      requires Valid() && k < Pow2(bits) && HasLeaf(h, root, k)
      modifies `root, `contents
      ensures Valid() && contents == old(contents)[k := v]
      ensures forall j: nat :: old(HasLeaf(h, root, j)) ==> HasLeaf(h, root, j)
    {
      ghost var was := root;
      var leaf := root[I1(h, k)].value[I2(h, k)].value;
      var leaf' := leaf[I3(h, k) := v];
      root := PutLeaf(h, root, k, leaf');
      contents := contents[k := v];
      forall j: nat
        ensures WellShaped(h, root) && Get(h, root, j) == Value(contents, j) && (HasLeaf(h, was, j) ==> HasLeaf(h, root, j))
      {
        PutLeafGets(h, was, k, leaf', j);
        assert Get(h, was, j) == Value(old(contents), j);
        if j / h.leaf == k / h.leaf {
          SameLeaf(h, j, k);
          if I3(h, j) == I3(h, k) {
            IndicesDetermine(h, j, k);
          }
        }
      }
    }

    /** Makes sure there is a leaf for the key; the new nodes hold no value. */
    method EnsureLeaf(key: nat) returns (ok: bool)
      requires Valid() && I1(h, key) < h.inner
      modifies `root, `requests
      ensures Valid() && (ok ==> HasLeaf(h, root, key))
      ensures forall j: nat :: old(HasLeaf(h, root, j)) ==> HasLeaf(h, root, j)
      ensures old(requests) <= requests && (!ok ==> requests != old(requests) && !grants(requests - 1))
    {
      hide Pow2, I1, I2, I3, ShapeOf;
      if root[I1(h, key)].None? {
        requests := requests + 1;
        if !grants(requests - 1) {
          return false;
        }
        ghost var was := root;
        root := root[I1(h, key) := Some(seq(h.inner, _ => None))];
        NewNodeGets(h, was, I1(h, key), seq(h.inner, _ => None));
      }
      if root[I1(h, key)].value[I2(h, key)].None? {
        requests := requests + 1;
        if !grants(requests - 1) {
          return false;
        }
        ghost var was := root;
        root := PutLeaf(h, root, key, seq(h.leaf, _ => 0));
        NewLeafGets(h, was, key, seq(h.leaf, _ => 0));
      }
      return true;
    }

    /**
     * Ensure: afterwards every key from start to the last has a leaf, or a key is out of range, or
     * memory ran out. No key's value changes in any case.
     */
    method Ensure(start: nat, n: nat) returns (ok: bool)
      requires Valid() && start < WORD_SIZE && n < WORD_SIZE
      modifies `root, `requests
      ensures Valid() && contents == old(contents)
      ensures ok ==> forall k :: start <= k <= Last(start, n) ==> HasLeaf(h, root, k) && k < Pow2(bits)
      ensures forall j: nat :: old(HasLeaf(h, root, j)) ==> HasLeaf(h, root, j)
      ensures !ok ==> start <= Last(start, n) &&
                      (Pow2(bits) <= Last(start, n) || exists i :: old(requests) <= i < requests && !grants(i))
    {
      hide Pow2, I1, I2, I3, ShapeOf, Last;
      var key, last := start, Last(start, n);
      while key <= last
        invariant Valid() && start <= key && old(requests) <= requests
        invariant forall k :: start <= k < key && k <= last ==> HasLeaf(h, root, k) && k < Pow2(bits)
        invariant forall j: nat :: old(HasLeaf(h, root, j)) ==> HasLeaf(h, root, j)
        decreases last + 1 - key
      {
        InRange(bits, key);
        if I1(h, key) >= h.inner || I2(h, key) >= h.inner {
          return false;
        }
        ok := EnsureLeaf(key);
        if !ok {
          return;
        }
        NextLeaf(bits, key);
        ghost var from := key;
        key := BlockEnd(key, h.leaf) % WORD_SIZE;
        forall k: nat | from <= k < key ensures k < Pow2(bits) && HasLeaf(h, root, k) {
          SameLeaf(h, k, from);
        }
      }
      return true;
    }

    /** No key in the interval has a value. */
    ghost predicate NoneIn(from: nat, to: nat)
      reads this
    {
      forall j :: from <= j < to ==> Value(contents, j) == 0
    }

    /** The inner loop of Next: the first value at or after the key in the key's leaf. */
    method ScanLeaf(k: nat) returns (v: nat)
      requires Valid() && k < Pow2(bits) && HasLeaf(h, root, k)
      ensures v == 0 ==> NoneIn(k, BlockEnd(k, h.leaf))
      ensures v != 0 ==> exists j :: k <= j && Value(contents, j) == v && NoneIn(k, j)
    {
      hide Pow2, ShapeOf, BlockEnd;
      var leaf := root[I1(h, k)].value[I2(h, k)].value;
      var i3, at := I3(h, k), k;
      InBlock(k, h.leaf);
      LeafAt(k, h.leaf);
      while i3 < h.leaf
        invariant i3 <= h.leaf && k <= at == k - I3(h, k) + i3
        invariant NoneIn(k, at)
      {
        assert Get(h, root, at) == leaf[i3] by {
          hide Value;
          LeafPos(h, k, at, i3);
        }
        assert Get(h, root, at) == Value(contents, at);
        if leaf[i3] != 0 {
          return leaf[i3];
        }
        i3, at := i3 + 1, at + 1;
      }
      return 0;
    }

    /** Next: the value of the smallest key at or above k that has one, or NULL. */
    method Next(k: nat) returns (v: nat)
      requires Valid()
      ensures v == 0 ==> forall j :: k <= j ==> Value(contents, j) == 0
      ensures v != 0 ==> exists j :: k <= j && Value(contents, j) == v && NoneIn(k, j)
    {
      hide Pow2, ShapeOf, BlockEnd, I1, I2, I3;
      var at := k;
      while at < Pow2(bits)
        invariant k <= at && NoneIn(k, at)
        decreases Pow2(bits) - at
      {
        InRange(bits, at);
        if root[I1(h, at)].None? {
          EmptyTop(at);
          at := BlockEnd(at, h.inner * h.leaf);
        } else {
          var found := 0;
          if root[I1(h, at)].value[I2(h, at)].Some? {
            found := ScanLeaf(at);
          } else {
            EmptyLeaf(at);
          }
          if found != 0 {
            return found;
          }
          InBlock(at, h.leaf);
          at := BlockEnd(at, h.leaf);
        }
      }
      return 0;
    }

    /** Without an interior node none of its keys has a value. */
    lemma EmptyTop(at: nat)
      requires Valid() && I1(h, at) < h.inner && root[I1(h, at)].None?
      ensures 0 < h.inner * h.leaf && at < BlockEnd(at, h.inner * h.leaf) && NoneIn(at, BlockEnd(at, h.inner * h.leaf))
    {
      Partition.MulLe(1, h.inner, h.leaf);
      InBlock(at, h.inner * h.leaf);
      forall j | at <= j < BlockEnd(at, h.inner * h.leaf) ensures Value(contents, j) == 0 {
        assert I1(h, j) == I1(h, at);
        assert Get(h, root, j) == 0;
      }
    }

    lemma EmptyLeaf(at: nat)
      requires Valid() && I1(h, at) < h.inner && root[I1(h, at)].Some? && root[I1(h, at)].value[I2(h, at)].None?
      ensures NoneIn(at, BlockEnd(at, h.leaf))
    {
      InBlock(at, h.leaf);
      forall j | at <= j < BlockEnd(at, h.leaf) ensures Value(contents, j) == 0 {
        SameLeaf(h, j, at);
        assert Get(h, root, j) == 0;
      }
    }
  }

  lemma LeafAt(k: nat, r: nat)
    requires 0 < r
    ensures BlockEnd(k, r) == k - k % r + r
  {
    DivMod(k, r);
  }

  /** The key at a position of the leaf that holds k. */
  lemma LeafPos(h: Shape, k: nat, at: nat, i: nat)
    requires 0 < h.inner && 0 < h.leaf && i < h.leaf && at == k - k % h.leaf + i
    ensures I1(h, at) == I1(h, k) && I2(h, at) == I2(h, k) && I3(h, at) == i
  {
    DivMod(k, h.leaf);
    Partition.DivIs(at, h.leaf, k / h.leaf);
    DivMod(at, h.leaf);
    SameLeaf(h, at, k);
  }

  /** A new interior node changes nobody's value. */
  lemma NewNodeGets(h: Shape, root: Root, i: nat, node: Node)
    requires 0 < h.inner && 0 < h.leaf && WellShaped(h, root) && i < h.inner && root[i].None?
    requires |node| == h.inner && forall j :: 0 <= j < |node| ==> node[j].None?
    ensures WellShaped(h, root[i := Some(node)])
    ensures forall k: nat :: Get(h, root[i := Some(node)], k) == Get(h, root, k)
    ensures forall k: nat :: HasLeaf(h, root, k) ==> HasLeaf(h, root[i := Some(node)], k)
  {
    hide I1, I3;
  }

  /** A new leaf changes nobody's value. */
  lemma NewLeafGets(h: Shape, root: Root, key: nat, leaf: Leaf)
    requires 0 < h.inner && 0 < h.leaf && WellShaped(h, root) && I1(h, key) < h.inner && root[I1(h, key)].Some?
    requires root[I1(h, key)].value[I2(h, key)].None? && |leaf| == h.leaf && forall j :: 0 <= j < |leaf| ==> leaf[j] == 0
    ensures WellShaped(h, PutLeaf(h, root, key, leaf)) && HasLeaf(h, PutLeaf(h, root, key, leaf), key)
    ensures forall k: nat :: Get(h, PutLeaf(h, root, key, leaf), k) == Get(h, root, k)
    ensures forall k: nat :: HasLeaf(h, root, k) ==> HasLeaf(h, PutLeaf(h, root, key, leaf), k)
  {
    PutLeafShaped(h, root, key, leaf);
    forall k: nat
      ensures Get(h, PutLeaf(h, root, key, leaf), k) == Get(h, root, k)
      ensures HasLeaf(h, root, k) ==> HasLeaf(h, PutLeaf(h, root, key, leaf), k)
    {
      PutLeafGets(h, root, key, leaf, k);
      if k / h.leaf == key / h.leaf {
        SameLeaf(h, k, key);
      }
    }
  }

  /** The key after a leaf in range is the next multiple, without wrap-around and at most the end of the range. */
  lemma NextLeaf(bits: nat, key: nat)
    requires WidthOk(bits) && key < Pow2(bits)
    ensures var r := ShapeOf(bits).leaf;
            && BlockEnd(key, r) % WORD_SIZE == BlockEnd(key, r) && key < BlockEnd(key, r) <= Pow2(bits)
            && forall j: nat {:trigger j / r} :: key <= j < BlockEnd(key, r) ==> j / r == key / r
  {
    hide Pow2, ShapeOf, BlockEnd;
    var h := ShapeOf(bits);
    ShapeCovers(bits);
    KeysFitWord(bits);
    InBlock(key, h.leaf);
    Regroup(h.inner, h.leaf);
    BlockEndBelow(key, h.leaf, h.inner * h.inner);
    SmallMod(BlockEnd(key, h.leaf), WORD_SIZE);
  }

  lemma Regroup(a: nat, b: nat)
    ensures a * (a * b) == (a * a) * b
  {
  }

  lemma SmallMod(x: nat, m: nat)
    requires x < m
    ensures x % m == x
  {
  }
}
