/**
 * The address map: a hash table of clusters, each a dense array of per-block entry lists, that
 * refines a map from addresses to values and answers which range an address points into.
 */
module AddressMap {
  import opened Collections

  const BLOCK_SIZE: nat := 128
  const CLUSTER_BLOCKS: nat := 8192
  const CLUSTER_SIZE: nat := 1048576
  const HASH_SIZE: nat := 4096

  datatype Entry<+V> = Entry(key: nat, value: V)

  datatype Cluster<+V> = Cluster(id: nat, blocks: seq<seq<Entry<V>>>)

  type Table<+V> = seq<seq<Cluster<V>>>

  /** The multiplicative hash: top 12 bits of the low 32 bits of the product. */
  function HashInt(x: nat): (h: nat)
    ensures h < HASH_SIZE
  {
    x % 0x1_0000_0000 * 2654435769 % 0x1_0000_0000 / 0x10_0000
  }

  /** Number of the block an address lies in, over the whole address space. */
  function BlockNo(num: nat): nat {
    num / BLOCK_SIZE
  }

  function ClusterId(num: nat): nat {
    num / CLUSTER_SIZE
  }

  function BlockId(num: nat): (b: nat)
    ensures b < CLUSTER_BLOCKS
  {
    num / BLOCK_SIZE % CLUSTER_BLOCKS
  }

  lemma BlockSplits(num: nat)
    ensures ClusterId(num) == BlockNo(num) / CLUSTER_BLOCKS
    ensures BlockId(num) == BlockNo(num) % CLUSTER_BLOCKS
  {
    assert num / 128 / 8192 == num / 1048576;
  }

  // ---------------------------------------------------------------- the table as a value

  /** Index of the first element with a property, or the length. */
  function FirstWith<T>(s: seq<T>, p: T -> bool): (i: nat)
    ensures i <= |s| && (i < |s| ==> p(s[i])) && forall j :: 0 <= j < i ==> !p(s[j])
  {
    if s == [] || p(s[0]) then 0 else 1 + FirstWith(s[1..], p)
  }

  /** Position of a cluster in its chain, or the chain length. */
  function Position<V>(chain: seq<Cluster<V>>, id: nat): (i: nat)
    ensures i <= |chain|
    ensures i < |chain| ==> chain[i].id == id
    ensures forall j :: 0 <= j < i ==> chain[j].id != id
  {
    FirstWith(chain, (c: Cluster<V>) => c.id == id)
  }

  predicate WellFormed<V>(t: Table<V>) {
    && |t| == HASH_SIZE
    && forall h, i :: 0 <= h < |t| && 0 <= i < |t[h]| ==> |t[h][i].blocks| == CLUSTER_BLOCKS
  }

  /** The entry list of a block: empty if its cluster does not exist. */
  function BlockAt<V>(t: Table<V>, q: nat): seq<Entry<V>>
    requires WellFormed(t)
  {
    var chain := t[HashInt(q / CLUSTER_BLOCKS)];
    var i := Position(chain, q / CLUSTER_BLOCKS);
    if i < |chain| then chain[i].blocks[q % CLUSTER_BLOCKS] else []
  }

  function EmptyCluster<V>(id: nat): Cluster<V> {
    Cluster(id, seq(CLUSTER_BLOCKS, i => []))
  }

  /** Creating a missing cluster changes no block. */
  lemma CreateKeepsBlocks<V>(t: Table<V>, id: nat)
    requires WellFormed(t) && Position(t[HashInt(id)], id) == |t[HashInt(id)]|
    ensures var t' := t[HashInt(id) := [EmptyCluster<V>(id)] + t[HashInt(id)]];
            WellFormed(t') && forall q: nat :: BlockAt(t', q) == BlockAt(t, q)
  {
    var h := HashInt(id);
    var t': Table<V> := t[h := [EmptyCluster<V>(id)] + t[h]];
    assert WellFormed(t') by {
      forall g: nat, i: nat | 0 <= g < |t'| && 0 <= i < |t'[g]| ensures |t'[g][i].blocks| == CLUSTER_BLOCKS {
        if g == h && 0 < i {
          assert t'[g][i] == t[h][i - 1];
        }
      }
    }
    forall q: nat ensures BlockAt(t', q) == BlockAt(t, q) {
      if HashInt(q / CLUSTER_BLOCKS) == h {
        assert t'[h][1..] == t[h];
      }
    }
  }

  /** Replacing the list of one block changes that block only. */
  lemma SetBlock<V>(t: Table<V>, id: nat, b: nat, list: seq<Entry<V>>)
    requires WellFormed(t) && b < CLUSTER_BLOCKS
    requires Position(t[HashInt(id)], id) < |t[HashInt(id)]|
    ensures var (h, i) := (HashInt(id), Position(t[HashInt(id)], id));
            var t': Table<V> := t[h := t[h][i := Cluster(id, t[h][i].blocks[b := list])]];
            && WellFormed(t')
            && forall q: nat :: BlockAt(t', q) == (if q == id * CLUSTER_BLOCKS + b then list else BlockAt(t, q))
  {
    var h, i := HashInt(id), Position(t[HashInt(id)], id);
    var t': Table<V> := t[h := t[h][i := Cluster(id, t[h][i].blocks[b := list])]];
    forall q: nat
      ensures BlockAt(t', q) == (if q == id * CLUSTER_BLOCKS + b then list else BlockAt(t, q))
    {
      var c := q / CLUSTER_BLOCKS;
      if HashInt(c) == h {
        SamePositions(t[h], t'[h], c);
      }
      assert q == c * CLUSTER_BLOCKS + q % CLUSTER_BLOCKS;
    }
  }

  lemma SamePositions<V>(a: seq<Cluster<V>>, b: seq<Cluster<V>>, id: nat)
    requires |a| == |b| && forall i :: 0 <= i < |a| ==> a[i].id == b[i].id
    ensures Position(a, id) == Position(b, id)
  {
    var i, j := Position(a, id), Position(b, id);
    assert i < |a| ==> b[i].id == id;
    assert j < |b| ==> a[j].id == id;
  }

  // ---------------------------------------------------------------- entry lists

  /** Position of a key in a block list, or its length. */
  function KeyPos<V>(list: seq<Entry<V>>, key: nat): (i: nat)
    ensures i <= |list|
    ensures i < |list| ==> list[i].key == key
    ensures forall j :: 0 <= j < i ==> list[j].key != key
  {
    FirstWith(list, (e: Entry<V>) => e.key == key)
  }

  ghost predicate ListOk<V>(list: seq<Entry<V>>, q: nat) {
    && (forall i :: 0 <= i < |list| ==> BlockNo(list[i].key) == q)
    && (forall i, j :: 0 <= i < j < |list| ==> list[i].key != list[j].key)
  }

  /** What one block list says about a key. */
  function ListGet<V>(list: seq<Entry<V>>, key: nat): Option<V> {
    var i := KeyPos(list, key);
    if i < |list| then Some(list[i].value) else None
  }

  /** The table agrees with a plain map on every address, block by block. */
  ghost predicate Represents<V>(t: Table<V>, m: map<nat, V>) {
    && WellFormed(t)
    && (forall q: nat {:trigger BlockAt(t, q)} :: ListOk(BlockAt(t, q), q))
    && (forall key: nat {:trigger key in m} ::
          ListGet(BlockAt(t, BlockNo(key)), key) == (if key in m then Some(m[key]) else None))
  }

  /** An entry of a block list is an entry of the map. */
  lemma EntryInMap<V>(t: Table<V>, m: map<nat, V>, q: nat, i: nat)
    requires Represents(t, m) && i < |BlockAt(t, q)|
    ensures var e := BlockAt(t, q)[i]; BlockNo(e.key) == q && e.key in m && m[e.key] == e.value
  {
    hide Represents, ListGet, BlockAt;
    TableAt(t, m, q, 0);
    var list := BlockAt(t, q);
    TableAt(t, m, q, list[i].key);
    ListGetAt(list, q, i);
  }

  lemma TableAt<V>(t: Table<V>, m: map<nat, V>, q: nat, key: nat)
    requires Represents(t, m)
    ensures WellFormed(t) && ListOk(BlockAt(t, q), q)
    ensures ListGet(BlockAt(t, BlockNo(key)), key) == (if key in m then Some(m[key]) else None)
  {
  }

  lemma ListGetAt<V>(list: seq<Entry<V>>, q: nat, i: nat)
    requires ListOk(list, q) && i < |list|
    ensures BlockNo(list[i].key) == q && ListGet(list, list[i].key) == Some(list[i].value)
  {
    hide BlockNo;
    KeyPosIs(list, list[i].key, i);
  }

  /** A key of the map is an entry of its block list. */
  lemma MapInList<V>(t: Table<V>, m: map<nat, V>, key: nat) returns (i: nat)
    requires Represents(t, m) && key in m
    ensures i < |BlockAt(t, BlockNo(key))| && BlockAt(t, BlockNo(key))[i] == Entry(key, m[key])
  {
    i := KeyPos(BlockAt(t, BlockNo(key)), key);
    assert ListGet(BlockAt(t, BlockNo(key)), key) == Some(m[key]);
  }

  // ---------------------------------------------------------------- changing one block

  /** The list with a key set: overwritten in place, or put in front. */
  function ListPut<V>(list: seq<Entry<V>>, key: nat, value: V): seq<Entry<V>> {
    var i := KeyPos(list, key);
    if i < |list| then list[i := Entry(key, value)] else [Entry(key, value)] + list
  }

  function ListDrop<V>(list: seq<Entry<V>>, key: nat): seq<Entry<V>> {
    var i := KeyPos(list, key);
    if i < |list| then list[..i] + list[i + 1..] else list
  }

  /** A key sits at most once in a good list, so any position of it is the one found. */
  lemma KeyPosIs<V>(list: seq<Entry<V>>, key: nat, i: nat)
    requires i <= |list| && (i < |list| ==> list[i].key == key) && forall j :: 0 <= j < i ==> list[j].key != key
    ensures KeyPos(list, key) == i
  {
  }

  lemma PutGets<V>(list: seq<Entry<V>>, key: nat, value: V, q: nat, k: nat)
    requires ListOk(list, q) && BlockNo(key) == q
    ensures ListOk(ListPut(list, key, value), q)
    ensures ListGet(ListPut(list, key, value), k) == (if k == key then Some(value) else ListGet(list, k))
  {
    var i, next := KeyPos(list, key), ListPut(list, key, value);
    if i < |list| {
      KeyPosIs(next, k, KeyPos(list, k));
    } else {
      assert next[1..] == list;
      assert forall j :: 1 <= j < |next| ==> next[j] == list[j - 1];
    }
  }

  lemma DropGets<V>(list: seq<Entry<V>>, key: nat, q: nat, k: nat)
    requires ListOk(list, q)
    ensures ListOk(ListDrop(list, key), q)
    ensures ListGet(ListDrop(list, key), k) == (if k == key then None else ListGet(list, k))
  {
    hide KeyPos, FirstWith;
    var i, next := KeyPos(list, key), ListDrop(list, key);
    if i < |list| {
      assert forall j :: 0 <= j < |next| ==> next[j] == (if j < i then list[j] else list[j + 1]);
      var j := KeyPos(list, k);
      KeyPosIs(next, k, if k == key then |next| else if j <= i then j else j - 1);
    }
  }

  /** Changing one block list to match a change of the map keeps the representation. */
  lemma BlockChange<V>(t: Table<V>, t': Table<V>, m: map<nat, V>, m': map<nat, V>, q: nat, list: seq<Entry<V>>)
    requires Represents(t, m) && WellFormed(t') && ListOk(list, q)
    requires forall r: nat {:trigger BlockAt(t', r)} :: BlockAt(t', r) == (if r == q then list else BlockAt(t, r))
    requires forall k: nat {:trigger k in m'} :: BlockNo(k) == q ==>
               ListGet(list, k) == (if k in m' then Some(m'[k]) else None)
    requires forall k: nat {:trigger k in m'} :: BlockNo(k) != q ==>
               (k in m' <==> k in m) && (k in m ==> m'[k] == m[k])
    ensures Represents(t', m')
  {
    forall k: nat ensures ListGet(BlockAt(t', BlockNo(k)), k) == (if k in m' then Some(m'[k]) else None) {
      assert k in m <==> k in m || k in m;
    }
    forall r: nat ensures ListOk(BlockAt(t', r), r) {
      assert ListOk(BlockAt(t, r), r);
    }
  }

  /** Whether the range of an entry contains an address: a range always contains its own start. */
  predicate Contains<V>(size: V -> nat, k: nat, v: V, num: nat) {
    k == num || k <= num < k + size(v)
  }

  /** The last address of the block of a key. */
  function BlockEnd(k: nat): (e: nat)
    ensures k <= e && BlockNo(e) == BlockNo(k)
  {
    k / BLOCK_SIZE * BLOCK_SIZE + (BLOCK_SIZE - 1)
  }

  /** The walk back from num gets to the block of k before it gives up. */
  predicate Within(k: nat, num: nat, maxSize: nat) {
    num <= BlockEnd(k) + maxSize
  }

  /** The stored ranges do not overlap. */
  ghost predicate Disjoint<V>(size: V -> nat, m: map<nat, V>) {
    forall a, b :: a in m && b in m && a < b ==> a + size(m[a]) <= b
  }

  /** The search loop over one block list. */
  method SearchList<V>(list: seq<Entry<V>>, key: nat) returns (i: nat)
    ensures i == KeyPos(list, key)
  {
    i := 0;
    while i < |list| && list[i].key != key
      invariant 0 <= i <= |list| && forall j :: 0 <= j < i ==> list[j].key != key
    {
      i := i + 1;
    }
    KeyPosIs(list, key, i);
  }

  /** The last address of the block before the one of num. */
  function PrevBlockEnd(num: nat): (r: nat)
    requires BlockId(num) != 0
    ensures r < num && r % BLOCK_SIZE == BLOCK_SIZE - 1 && BlockNo(r) == BlockNo(num) - 1
  {
    num / BLOCK_SIZE * BLOCK_SIZE - 1
  }

  /** The last address of the cluster before the one of num. */
  function PrevClusterEnd(num: nat): (r: nat)
    requires CLUSTER_SIZE <= num
    ensures r < num && r % BLOCK_SIZE == BLOCK_SIZE - 1 && ClusterId(r) == ClusterId(num) - 1
    ensures forall k: nat :: ClusterId(k) < ClusterId(num) ==> k <= r
  {
    num / CLUSTER_SIZE * CLUSTER_SIZE - 1
  }

  class AddressIndex<V> {
    var table: Table<V>
    ghost var contents: map<nat, V>

    ghost predicate Valid()
      reads this
    {
      Represents(table, contents)
    }

    constructor ()
      ensures Valid() && contents == map[]
    {
      table := seq(HASH_SIZE, i => []);
      contents := map[];
    }

    /** FindCluster without creation: the chain position of the cluster, or the chain length. */
    method FindCluster(num: nat) returns (h: nat, i: nat)
      requires Valid()
      ensures h == HashInt(ClusterId(num)) && i == Position(table[h], ClusterId(num))
    {
      h := HashInt(ClusterId(num));
      var chain := table[h];
      i := 0;
      while i < |chain| && chain[i].id != ClusterId(num)
        invariant 0 <= i <= |chain|
        invariant forall j :: 0 <= j < i ==> chain[j].id != ClusterId(num)
      {
        i := i + 1;
      }
    }

    /** FindCluster with creation. */
    method EnsureCluster(num: nat) returns (h: nat, i: nat)
      requires Valid()
      modifies this`table
      ensures Valid()
      ensures h == HashInt(ClusterId(num)) && i == Position(table[h], ClusterId(num)) < |table[h]|
    {
      h, i := FindCluster(num);
      if i == |table[h]| {
        CreateKeepsBlocks(table, ClusterId(num));
        table := table[h := [EmptyCluster<V>(ClusterId(num))] + table[h]];
        i := 0;
      }
    }

    lemma BlockHere(num: nat)
      requires Valid()
      ensures var (h, id) := (HashInt(ClusterId(num)), ClusterId(num));
              var i := Position(table[h], id);
              && BlockAt(table, BlockNo(num)) == (if i < |table[h]| then table[h][i].blocks[BlockId(num)] else [])
              && BlockNo(num) == id * CLUSTER_BLOCKS + BlockId(num)
    {
      BlockSplits(num);
    }

    lemma KeyHere(key: nat)
      requires Valid()
      ensures WellFormed(table)
      ensures ListGet(BlockAt(table, BlockNo(key)), key) == (if key in contents then Some(contents[key]) else None)
    {
    }

    /** FindMutable / Find. */
    method Find(key: nat) returns (r: Option<V>)
      requires Valid()
      ensures r == (if key in contents then Some(contents[key]) else None)
    {
      var h, c := FindCluster(key);
      BlockHere(key);
      assert ListGet(BlockAt(table, BlockNo(key)), key) == (if key in contents then Some(contents[key]) else None);
      if c < |table[h]| {
        var list := table[h][c].blocks[BlockId(key)];
        var i := SearchList(list, key);
        if i < |list| {
          return Some(list[i].value);
        }
      }
      r := None;
    }

    method Insert(key: nat, value: V)
      requires Valid()
      modifies this
      ensures Valid() && contents == old(contents)[key := value]
    {
      var h, c := EnsureCluster(key);
      BlockHere(key);
      var b := BlockId(key);
      var list := table[h][c].blocks[b];
      var i := SearchList(list, key);
      var next := if i < |list| then list[i := Entry(key, value)] else [Entry(key, value)] + list;
      StoreBlock(key, next, contents[key := value], h, c);
    }

    /** Write a block list back and let the map follow. */
    method StoreBlock(key: nat, next: seq<Entry<V>>, ghost m: map<nat, V>, h: nat, c: nat)
      requires Valid() && h == HashInt(ClusterId(key)) && c == Position(table[h], ClusterId(key)) < |table[h]|
      requires var list := BlockAt(table, BlockNo(key));
               || (key in m && m == contents[key := m[key]] && next == ListPut(list, key, m[key]))
               || (m == contents - {key} && next == ListDrop(list, key))
      modifies this
      ensures Valid() && contents == m
    {
      hide KeyPos, FirstWith, Position;
      ghost var t, list := table, BlockAt(table, BlockNo(key));
      BlockHere(key);
      SetBlock(table, ClusterId(key), BlockId(key), next);
      table := table[h := table[h][c := Cluster(ClusterId(key), table[h][c].blocks[BlockId(key) := next])]];
      assert ListOk(list, BlockNo(key));
      NextMatches(list, next, BlockNo(key), key, m);
      BlockChange(t, table, contents, m, BlockNo(key), next);
      contents := m;
    }

    /** The new list of the block says what the new map says about the keys of the block. */
    lemma NextMatches(list: seq<Entry<V>>, next: seq<Entry<V>>, q: nat, key: nat, m: map<nat, V>)
      requires ListOk(list, q) && BlockNo(key) == q
      requires forall k: nat {:trigger k in contents} :: BlockNo(k) == q ==>
                 ListGet(list, k) == (if k in contents then Some(contents[k]) else None)
      requires || (key in m && m == contents[key := m[key]] && next == ListPut(list, key, m[key]))
               || (m == contents - {key} && next == ListDrop(list, key))
      ensures ListOk(next, q)
      ensures forall k: nat {:trigger k in m} :: BlockNo(k) == q ==>
                ListGet(next, k) == (if k in m then Some(m[k]) else None)
    {
      if key in m {
        PutGets(list, key, m[key], q, key);
      } else {
        DropGets(list, key, q, key);
      }
      forall k: nat | BlockNo(k) == q ensures ListGet(next, k) == (if k in m then Some(m[k]) else None) {
        assert ListGet(list, k) == (if k in contents then Some(contents[k]) else None);
        if key in m {
          PutGets(list, key, m[key], q, k);
        } else {
          DropGets(list, key, q, k);
        }
      }
    }

    method FindAndRemove(key: nat) returns (removed: Option<V>)
      requires Valid()
      modifies this
      ensures Valid() && contents == old(contents) - {key}
      ensures removed == (if key in old(contents) then Some(old(contents)[key]) else None)
    {
      hide Represents, WellFormed, BlockAt, HashInt, ClusterId;
      var h, c := FindCluster(key);
      BlockHere(key);
      KeyHere(key);
      var list := if c < |table[h]| then table[h][c].blocks[BlockId(key)] else [];
      var i := SearchList(list, key);
      if i == |list| {
        AbsentKey(contents, key);
        return None;
      }
      removed := Some(list[i].value);
      StoreBlock(key, list[..i] + list[i + 1..], contents - {key}, h, c);
    }

    static lemma AbsentKey(m: map<nat, V>, key: nat)
      requires key !in m
      ensures m - {key} == m
    {
    }

    /** Scan one block list: the first entry that contains num, and whether any key is at or below it. */
    method ScanBlock(size: V -> nat, list: seq<Entry<V>>, num: nat) returns (hit: Option<nat>, hadSmaller: bool)
      ensures hit.Some? ==>
                exists i :: 0 <= i < |list| && list[i].key == hit.value && Contains(size, hit.value, list[i].value, num)
      ensures hit.None? ==> forall i :: 0 <= i < |list| ==> !Contains(size, list[i].key, list[i].value, num)
      ensures hit.None? ==> (hadSmaller <==> exists i :: 0 <= i < |list| && list[i].key <= num)
    {
      hadSmaller := false;
      var i := 0;
      while i < |list|
        invariant 0 <= i <= |list|
        invariant forall j :: 0 <= j < i ==> !Contains(size, list[j].key, list[j].value, num)
        invariant hadSmaller <==> exists j :: 0 <= j < i && list[j].key <= num
      {
        if list[i].key <= num {
          if list[i].key == num || num < list[i].key + size(list[i].value) {
            return Some(list[i].key), hadSmaller;
          }
          hadSmaller := true;
        }
        i := i + 1;
      }
      hit := None;
    }

    /** No key at or below num lies in a block above the one of cursor. */
    ghost predicate NoneAbove(num: nat, cursor: nat)
      reads this
    {
      forall k :: k in contents && k <= num ==> BlockNo(k) <= BlockNo(cursor)
    }

    /** No stored range within reach contains num. */
    ghost predicate NotInside(size: V -> nat, num: nat, maxSize: nat)
      reads this
    {
      forall k :: k in contents && Within(k, num, maxSize) ==> !Contains(size, k, contents[k], num)
    }

    /**
     * Walk back from an address, block by block and cluster by cluster, to the range it points
     * into. A range is returned if and only if it contains the address and its block ends at most
     * maxSize below it; so no range that starts within maxSize below the address is missed.
     */
    method FindInside(size: V -> nat, maxSize: nat, num: nat) returns (r: Option<nat>)
      requires Valid() && Disjoint(size, contents)
      ensures r.Some? ==>
                r.value in contents && Contains(size, r.value, contents[r.value], num) && Within(r.value, num, maxSize)
      ensures r.None? ==> NotInside(size, num, maxSize)
    {
      var cursor: nat := num;
      while true
        invariant cursor <= num && NoneAbove(num, cursor) && Within(cursor, num, maxSize)
        decreases cursor
      {
        var h, c := FindCluster(cursor);
        var done;
        if c < |table[h]| {
          done, r, cursor := WalkCluster(size, maxSize, num, cursor, h, c);
          if done {
            return;
          }
        } else {
          NoSuchCluster(num, cursor);
        }
        if cursor < CLUSTER_SIZE {
          FirstClusterDone(size, num, maxSize, cursor);
          return None;
        }
        ghost var was := cursor;
        cursor := PrevClusterEnd(cursor);
        ClusterBelow(num, was, cursor);
        if num - cursor > maxSize {
          OutOfReach(size, num, maxSize, cursor);
          return None;
        }
      }
    }

    /** All keys of the cluster of cursor that are at or below num are ruled out. */
    ghost predicate ClusterEmptyBelow(num: nat, cursor: nat)
      reads this
    {
      forall k :: k in contents && k <= num ==> ClusterId(k) < ClusterId(cursor)
    }

    /** The inner loop: back over the blocks of one cluster. */
    method WalkCluster(size: V -> nat, maxSize: nat, num: nat, from: nat, h: nat, c: nat)
      returns (done: bool, r: Option<nat>, cursor: nat)
      requires Valid() && Disjoint(size, contents) && from <= num && NoneAbove(num, from) && Within(from, num, maxSize)
      requires h == HashInt(ClusterId(from)) && c == Position(table[h], ClusterId(from)) < |table[h]|
      ensures done && r.Some? ==>
                r.value in contents && Contains(size, r.value, contents[r.value], num) && Within(r.value, num, maxSize)
      ensures done && r.None? ==> NotInside(size, num, maxSize)
      ensures !done ==> cursor <= from && ClusterId(cursor) == ClusterId(from) && NoneAbove(num, cursor)
      ensures !done ==> ClusterEmptyBelow(num, cursor)
    {
      cursor, r := from, None;
      while true
        invariant cursor <= from && ClusterId(cursor) == ClusterId(from) && NoneAbove(num, cursor)
        invariant Within(cursor, num, maxSize)
        decreases cursor
      {
        BlockHere(cursor);
        var block := BlockId(cursor);
        var hit, hadSmaller := ScanBlock(size, table[h][c].blocks[block], num);
        if hit.Some? {
          HitIsInside(size, num, cursor, hit.value);
          return true, hit, cursor;
        }
        if hadSmaller {
          SmallerShadows(size, num, maxSize, cursor);
          return true, None, cursor;
        }
        NoSmallerHere(num, cursor);
        if block == 0 {
          FirstBlockDone(num, cursor);
          return false, None, cursor;
        }
        ghost var was := cursor;
        cursor := PrevBlockEnd(cursor);
        BlockBelow(num, was, cursor);
        if num - cursor > maxSize {
          OutOfReach(size, num, maxSize, cursor);
          return true, None, cursor;
        }
      }
    }

    lemma HitIsInside(size: V -> nat, num: nat, cursor: nat, k: nat)
      requires Valid()
      requires var list := BlockAt(table, BlockNo(cursor));
               exists i :: 0 <= i < |list| && list[i].key == k && Contains(size, k, list[i].value, num)
      ensures k in contents && Contains(size, k, contents[k], num) && BlockEnd(k) == BlockEnd(cursor)
    {
      var list := BlockAt(table, BlockNo(cursor));
      var i :| 0 <= i < |list| && list[i].key == k && Contains(size, k, list[i].value, num);
      EntryInMap(table, contents, BlockNo(cursor), i);
    }

    /** A key at or below num that does not contain it hides everything before it. */
    lemma SmallerShadows(size: V -> nat, num: nat, maxSize: nat, cursor: nat)
      requires Valid() && Disjoint(size, contents) && NoneAbove(num, cursor)
      requires var list := BlockAt(table, BlockNo(cursor));
               && (exists i :: 0 <= i < |list| && list[i].key <= num)
               && (forall i :: 0 <= i < |list| ==> !Contains(size, list[i].key, list[i].value, num))
      ensures NotInside(size, num, maxSize)
    {
      hide Represents, BlockAt;
      KeyHere(cursor);
      var list := BlockAt(table, BlockNo(cursor));
      var i :| 0 <= i < |list| && list[i].key <= num;
      EntryInMap(table, contents, BlockNo(cursor), i);
      var e := list[i].key;
      forall k | k in contents && k <= num ensures !Contains(size, k, contents[k], num) {
        if BlockNo(k) == BlockNo(cursor) {
          var j := MapInList(table, contents, k);
        } else {
          assert k < e;
          assert k + size(contents[k]) <= e;
        }
      }
    }

    lemma NoSmallerHere(num: nat, cursor: nat)
      requires Valid() && NoneAbove(num, cursor)
      requires var list := BlockAt(table, BlockNo(cursor));
               forall i :: 0 <= i < |list| ==> num < list[i].key
      ensures forall k :: k in contents && k <= num ==> BlockNo(k) < BlockNo(cursor)
    {
      forall k | k in contents && k <= num ensures BlockNo(k) < BlockNo(cursor) {
        if BlockNo(k) == BlockNo(cursor) {
          var j := MapInList(table, contents, k);
        }
      }
    }

    lemma BlockBelow(num: nat, was: nat, cursor: nat)
      requires BlockId(was) != 0 && cursor == PrevBlockEnd(was)
      requires forall k :: k in contents && k <= num ==> BlockNo(k) < BlockNo(was)
      ensures cursor < was && ClusterId(cursor) == ClusterId(was) && NoneAbove(num, cursor)
    {
      BlockSplits(was);
      BlockSplits(cursor);
    }

    lemma FirstBlockDone(num: nat, cursor: nat)
      requires BlockId(cursor) == 0
      requires forall k :: k in contents && k <= num ==> BlockNo(k) < BlockNo(cursor)
      ensures ClusterEmptyBelow(num, cursor)
    {
      BlockSplits(cursor);
      forall k | k in contents && k <= num ensures ClusterId(k) < ClusterId(cursor) {
        BlockSplits(k);
      }
    }

    lemma NoSuchCluster(num: nat, cursor: nat)
      requires Valid() && NoneAbove(num, cursor)
      requires var h := HashInt(ClusterId(cursor)); Position(table[h], ClusterId(cursor)) == |table[h]|
      ensures ClusterEmptyBelow(num, cursor)
    {
      forall k | k in contents && k <= num ensures ClusterId(k) < ClusterId(cursor) {
        BlockSplits(k);
        BlockSplits(cursor);
        var j := MapInList(table, contents, k);
        assert BlockNo(k) / CLUSTER_BLOCKS <= BlockNo(cursor) / CLUSTER_BLOCKS;
        assert BlockAt(table, BlockNo(k)) != [];
      }
    }

    lemma ClusterBelow(num: nat, was: nat, cursor: nat)
      requires CLUSTER_SIZE <= was && cursor == PrevClusterEnd(was) && ClusterEmptyBelow(num, was)
      ensures cursor < was && NoneAbove(num, cursor)
    {
      forall k | k in contents && k <= num ensures BlockNo(k) <= BlockNo(cursor) {
        assert ClusterId(k) < ClusterId(was);
      }
    }

    lemma FirstClusterDone(size: V -> nat, num: nat, maxSize: nat, cursor: nat)
      requires cursor < CLUSTER_SIZE && ClusterEmptyBelow(num, cursor)
      ensures NotInside(size, num, maxSize)
    {
      assert ClusterId(cursor) == 0;
    }

    /** Once the cursor, at the end of its block, is out of reach, so is every remaining key. */
    lemma OutOfReach(size: V -> nat, num: nat, maxSize: nat, cursor: nat)
      requires NoneAbove(num, cursor) && cursor <= num && maxSize < num - cursor && cursor % BLOCK_SIZE == BLOCK_SIZE - 1
      ensures NotInside(size, num, maxSize)
    {
      forall k | k in contents && k <= num ensures BlockEnd(k) <= cursor {
        assert BlockNo(k) <= BlockNo(cursor);
      }
    }
  }
}
