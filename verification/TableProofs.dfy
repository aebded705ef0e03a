/**
 * What every operation of the table keeps: sealed entries in their own buckets, no key twice,
 * MAC buffers that mirror their chains, roots that authenticate their groups, and agreement
 * with a plain map.
 */
module TableProofs {
  import opened Collections
  import opened Bytes
  import opened Crypto
  import opened Table

  type KeyMap = map<seq<byte>, seq<byte>>

  // ---------------------------------------------------------------- aggregates

  /** An aggregate splits around any of its buckets. */
  lemma {:induction false} AggSplit(cfg: Config, s: Store, lo: nat, b: nat, hi: nat)
    requires lo <= b < hi <= |s.chains| && hi <= |s.bufs|
    ensures Agg(cfg, s, lo, hi) == Agg(cfg, s, lo, b) + BucketMacs(cfg, s, b) + Agg(cfg, s, b + 1, hi)
    decreases hi
  {
    if hi == b + 1 {
      assert Agg(cfg, s, b + 1, hi) == [];
    } else {
      AggSplit(cfg, s, lo, b, hi - 1);
    }
  }

  /** The aggregate depends only on what each bucket contributes. */
  lemma {:induction false} AggSame(cfg: Config, s: Store, t: Store, lo: nat, hi: nat)
    requires lo <= hi <= |s.chains| && hi <= |s.bufs| && hi <= |t.chains| && hi <= |t.bufs|
    requires forall b :: lo <= b < hi ==> BucketMacs(cfg, s, b) == BucketMacs(cfg, t, b)
    ensures Agg(cfg, s, lo, hi) == Agg(cfg, t, lo, hi)
    decreases hi
  {
    if lo < hi {
      AggSame(cfg, s, t, lo, hi - 1);
    }
  }

  /** Two stores that differ at most in bucket b. */
  ghost predicate OnlyBucket(cfg: Config, s: Store, t: Store, b: nat) {
    && Shape(cfg, s) && Shape(cfg, t)
    && s.roots == t.roots
    && forall i :: 0 <= i < cfg.size && i != b ==> s.chains[i] == t.chains[i] && s.bufs[i] == t.bufs[i]
  }

  /** The parts of the group aggregate on both sides of bucket b are common to both stores. */
  lemma AggAround(cfg: Config, s: Store, t: Store, b: nat)
    requires ValidConfig(cfg) && b < cfg.size && OnlyBucket(cfg, s, t, b)
    ensures var g := GroupOf(cfg, b);
            var (left, right) := (Agg(cfg, s, Lo(cfg, g), b), Agg(cfg, s, b + 1, Hi(cfg, g)));
            && Agg(cfg, t, Lo(cfg, g), b) == left
            && GroupAgg(cfg, s, g) == left + BucketMacs(cfg, s, b) + right
            && GroupAgg(cfg, t, g) == left + BucketMacs(cfg, t, b) + right
  {
    var g := GroupOf(cfg, b);
    AggSame(cfg, s, t, Lo(cfg, g), b);
    AggSame(cfg, s, t, b + 1, Hi(cfg, g));
    AggSplit(cfg, s, Lo(cfg, g), b, Hi(cfg, g));
    AggSplit(cfg, t, Lo(cfg, g), b, Hi(cfg, g));
  }

  lemma RestoreMiddle<T>(left: seq<T>, mid: seq<T>, right: seq<T>, j: nat, x: T)
    requires j < |mid|
    ensures (left + mid[j := x] + right)[|left| + j := mid[j]] == left + mid + right
  {
  }

  lemma DropMiddle<T>(left: seq<T>, mid: seq<T>, right: seq<T>, j: nat)
    requires j < |mid|
    ensures var all := left + mid + right;
            all[..|left| + j] + all[|left| + j + 1..] == left + (mid[..j] + mid[j + 1..]) + right
  {
  }

  /** Putting the previous MAC back yields the aggregate from before an overwrite at j. */
  lemma PreviousAfterOverwrite(cfg: Config, s: Store, t: Store, b: nat, j: nat, m: Mac)
    requires ValidConfig(cfg) && b < cfg.size && OnlyBucket(cfg, s, t, b)
    requires j < |BucketMacs(cfg, s, b)|
    requires BucketMacs(cfg, t, b) == BucketMacs(cfg, s, b)[j := m]
    ensures var g := GroupOf(cfg, b);
            var i := |Agg(cfg, t, Lo(cfg, g), b)| + j;
            && i < |GroupAgg(cfg, t, g)|
            && PreviousAgg(GroupAgg(cfg, t, g), i, false, BucketMacs(cfg, s, b)[j]) == GroupAgg(cfg, s, g)
  {
    hide Agg, BucketMacs;
    AggAround(cfg, s, t, b);
    var g := GroupOf(cfg, b);
    RestoreMiddle(Agg(cfg, s, Lo(cfg, g), b), BucketMacs(cfg, s, b), Agg(cfg, s, b + 1, Hi(cfg, g)), j, m);
  }

  /** Dropping the new MAC yields the aggregate from before an insert at j. */
  lemma PreviousAfterInsert(cfg: Config, s: Store, t: Store, b: nat, j: nat, prev: Mac)
    requires ValidConfig(cfg) && b < cfg.size && OnlyBucket(cfg, s, t, b)
    requires j < |BucketMacs(cfg, t, b)|
    requires BucketMacs(cfg, s, b) == BucketMacs(cfg, t, b)[..j] + BucketMacs(cfg, t, b)[j + 1..]
    ensures var g := GroupOf(cfg, b);
            var i := |Agg(cfg, t, Lo(cfg, g), b)| + j;
            && i < |GroupAgg(cfg, t, g)|
            && PreviousAgg(GroupAgg(cfg, t, g), i, true, prev) == GroupAgg(cfg, s, g)
  {
    hide Agg, BucketMacs;
    AggAround(cfg, s, t, b);
    var g := GroupOf(cfg, b);
    DropMiddle(Agg(cfg, s, Lo(cfg, g), b), BucketMacs(cfg, t, b), Agg(cfg, s, b + 1, Hi(cfg, g)), j);
  }

  // ---------------------------------------------------------------- one bucket

  /** A search that misses means no entry of the chain holds the key. */
  lemma MissMeansAbsent(c: Cipher, chain: seq<Entry>, key: seq<byte>)
    requires Lawful(c) && AllSealed(c, chain) && Find(c, chain, key) == |chain|
    ensures forall i :: 0 <= i < |chain| ==> KeyIn(c, chain[i]) != key
  {
    forall i | 0 <= i < |chain| ensures KeyIn(c, chain[i]) != key {
      MatchesIff(c, chain[i], key);
    }
  }

  /** Overwriting the entry that matched is the same as sealing the key with its new value. */
  lemma OverwriteIsSeal(c: Cipher, e: Entry, key: seq<byte>, val: seq<byte>, nac: Nac)
    requires Lawful(c) && Sealed(c, e) && Matches(c, e, key)
    ensures Overwrite(e, Seal(c, key, val, nac)) == Seal(c, key, val, nac)
  {
    MatchesIff(c, e, key);
  }

  lemma SealIsSealed(c: Cipher, key: seq<byte>, val: seq<byte>, nac: Nac)
    requires Lawful(c) && NulFree(key)
    ensures var e := Seal(c, key, val, nac); Sealed(c, e) && KeyIn(c, e) == key && ValIn(c, e) == val
  {
    SealOpens(c, key, val, nac);
  }

  /** Replacing the value of the entry at p changes what its key reads and nothing else. */
  lemma LookupAfterReplace(c: Cipher, chain: seq<Entry>, p: nat, e: Entry, key: seq<byte>)
    requires Lawful(c) && AllSealed(c, chain) && DistinctKeys(c, chain)
    requires p < |chain| && Sealed(c, e) && KeyIn(c, e) == KeyIn(c, chain[p])
    ensures Lookup(c, chain[p := e], key)
         == (if key == KeyIn(c, e) then Some(ValIn(c, e)) else Lookup(c, chain, key))
  {
    var next := chain[p := e];
    forall i | 0 <= i < |chain| ensures Matches(c, next[i], key) == Matches(c, chain[i], key) {
      MatchesIff(c, chain[i], key);
      MatchesIff(c, next[i], key);
    }
    var q := Find(c, chain, key);
    FindIs(c, next, key, q);
    if q < |chain| {
      MatchesIff(c, chain[q], key);
    }
    MatchesIff(c, chain[p], key);
  }

  lemma LookupAfterInsert(c: Cipher, chain: seq<Entry>, e: Entry, key: seq<byte>)
    requires Lawful(c) && Sealed(c, e)
    ensures Lookup(c, [e] + chain, key)
         == (if key == KeyIn(c, e) then Some(ValIn(c, e)) else Lookup(c, chain, key))
  {
    MatchesIff(c, e, key);
    assert ([e] + chain)[1..] == chain;
  }

  /** A well-formed chain stays so when its entry at p is replaced by one with the same key. */
  lemma ReplaceKeepsEntries(cfg: Config, chain: seq<Entry>, b: nat, p: nat, e: Entry)
    requires 0 < cfg.size && p < |chain|
    requires AllSealed(cfg.cipher, chain) && InBucket(cfg, chain, b) && DistinctKeys(cfg.cipher, chain)
    requires Sealed(cfg.cipher, e) && KeyIn(cfg.cipher, e) == KeyIn(cfg.cipher, chain[p])
    ensures var next := chain[p := e];
            AllSealed(cfg.cipher, next) && InBucket(cfg, next, b) && DistinctKeys(cfg.cipher, next)
  {
    var c, next := cfg.cipher, chain[p := e];
    assert forall i :: 0 <= i < |chain| ==> KeyIn(c, next[i]) == KeyIn(c, chain[i]);
  }

  lemma InsertKeepsEntries(cfg: Config, chain: seq<Entry>, b: nat, e: Entry)
    requires 0 < cfg.size
    requires AllSealed(cfg.cipher, chain) && InBucket(cfg, chain, b) && DistinctKeys(cfg.cipher, chain)
    requires Sealed(cfg.cipher, e) && BinOf(cfg, KeyIn(cfg.cipher, e)) == b
    requires forall i :: 0 <= i < |chain| ==> KeyIn(cfg.cipher, chain[i]) != KeyIn(cfg.cipher, e)
    ensures var next := [e] + chain;
            AllSealed(cfg.cipher, next) && InBucket(cfg, next, b) && DistinctKeys(cfg.cipher, next)
  {
    hide Sealed, BinOf, KeyIn;
    var c, next := cfg.cipher, [e] + chain;
    assert forall i :: 1 <= i < |next| ==> next[i] == chain[i - 1];
  }

  lemma SetKeepsSize(buf: MacBuf, chain: seq<Entry>, e: Entry, pos: nat)
    requires Sized(buf, chain) && pos <= |chain|
    requires pos == |chain| ==> |chain| < SLOTS
    ensures Sized(SetBuf(buf, |chain|, e.mac, pos), SetChain(chain, e, pos))
  {
  }

  /** The mirror slot keeps the buffer reversed on an overwrite, the next slot on an insert. */
  lemma SetKeepsMirror(buf: MacBuf, chain: seq<Entry>, e: Entry, pos: nat)
    requires Mirrors(buf, chain) && pos <= |chain|
    requires pos == |chain| ==> |chain| < SLOTS
    ensures Mirrors(SetBuf(buf, |chain|, e.mac, pos), SetChain(chain, e, pos))
  {
    var next := SetChain(chain, e, pos);
    if pos == |chain| {
      assert forall i :: 1 <= i < |next| ==> next[i] == chain[i - 1];
    }
  }

  /** The chain that a SET leaves: sealed, in its bucket, no key twice. */
  lemma SetKeepsEntries(cfg: Config, chain: seq<Entry>, b: nat, key: seq<byte>, val: seq<byte>, nac: Nac)
    requires ValidConfig(cfg) && NulFree(key) && BinOf(cfg, key) == b
    requires AllSealed(cfg.cipher, chain) && InBucket(cfg, chain, b) && DistinctKeys(cfg.cipher, chain)
    ensures var next := SetChain(chain, Seal(cfg.cipher, key, val, nac), Find(cfg.cipher, chain, key));
            AllSealed(cfg.cipher, next) && InBucket(cfg, next, b) && DistinctKeys(cfg.cipher, next)
  {
    var c := cfg.cipher;
    var p, e := Find(c, chain, key), Seal(c, key, val, nac);
    SealIsSealed(c, key, val, nac);
    if p < |chain| {
      OverwriteIsSeal(c, chain[p], key, val, nac);
      MatchesIff(c, chain[p], key);
      ReplaceKeepsEntries(cfg, chain, b, p, e);
    } else {
      MissMeansAbsent(c, chain, key);
      InsertKeepsEntries(cfg, chain, b, e);
    }
  }

  /** A SET changes what its own key reads, to the new value, and what no other key reads. */
  lemma SetLookup(c: Cipher, chain: seq<Entry>, key: seq<byte>, val: seq<byte>, nac: Nac, k: seq<byte>)
    requires Lawful(c) && NulFree(key) && AllSealed(c, chain) && DistinctKeys(c, chain)
    ensures Lookup(c, SetChain(chain, Seal(c, key, val, nac), Find(c, chain, key)), k)
         == (if k == key then Some(val) else Lookup(c, chain, k))
  {
    var p, e := Find(c, chain, key), Seal(c, key, val, nac);
    SealIsSealed(c, key, val, nac);
    if p < |chain| {
      OverwriteIsSeal(c, chain[p], key, val, nac);
      MatchesIff(c, chain[p], key);
      LookupAfterReplace(c, chain, p, e, k);
    } else {
      LookupAfterInsert(c, chain, e, k);
    }
  }

  lemma SetRefines(cfg: Config, chain: seq<Entry>, b: nat, m: KeyMap, key: seq<byte>, val: seq<byte>, nac: Nac)
    requires ValidConfig(cfg) && NulFree(key)
    requires AllSealed(cfg.cipher, chain) && DistinctKeys(cfg.cipher, chain) && ChainRefines(cfg, chain, m, b)
    ensures ChainRefines(cfg, SetChain(chain, Seal(cfg.cipher, key, val, nac), Find(cfg.cipher, chain, key)),
                         m[key := val], b)
  {
    forall k {
      SetLookup(cfg.cipher, chain, key, val, nac, k);
    }
  }

  // ---------------------------------------------------------------- SET

  /** The counter block of a SET: the old one advanced on an update, a random one on an insert. */
  function SetNac(cfg: Config, s: Store, b: nat, pos: nat, rand: Nac): Nac
    requires Shape(cfg, s) && b < cfg.size
  {
    if pos < |s.chains[b]| then
      var e := s.chains[b][pos];
      NextNac(cfg.cipher, e)
    else rand
  }

  function SearchPos(cfg: Config, s: Store, key: seq<byte>): nat
    requires 0 < cfg.size && Shape(cfg, s)
  {
    Find(cfg.cipher, s.chains[BinOf(cfg, key)], key)
  }

  /** Under mac_opt an insert needs a free slot. */
  predicate Room(cfg: Config, s: Store, key: seq<byte>)
    requires 0 < cfg.size && Shape(cfg, s)
  {
    var chain := s.chains[BinOf(cfg, key)];
    cfg.macOpt && Find(cfg.cipher, chain, key) == |chain| ==> |chain| < SLOTS
  }

  /** The table after ht_set_o, before the root is rebuilt. */
  function SetTable(cfg: Config, s: Store, key: seq<byte>, val: seq<byte>, rand: Nac): (t: Store)
    requires 0 < cfg.size && Shape(cfg, s)
    ensures Shape(cfg, t)
  {
    var b := BinOf(cfg, key);
    var pos := SearchPos(cfg, s, key);
    SetAt(cfg, s, b, Seal(cfg.cipher, key, val, SetNac(cfg, s, b, pos, rand)), pos)
  }

  function PrevMac(s: Store, b: nat, pos: nat, junk: Mac): Mac
    requires b < |s.chains|
  {
    if pos < |s.chains[b]| then s.chains[b][pos].mac else junk
  }

  /** A group stays well formed when the one bucket that changed does. */
  lemma BucketsFrame(cfg: Config, s: Store, t: Store, b: nat, m: KeyMap, m': KeyMap)
    requires ValidConfig(cfg) && b < cfg.size && OnlyBucket(cfg, s, t, b)
    requires var g := GroupOf(cfg, b); BucketsOk(cfg, s, g) && GroupRefines(cfg, s, m, g)
    requires BucketOk(cfg, t, b) && ChainRefines(cfg, t.chains[b], m', b)
    requires forall k :: NulFree(k) && BinOf(cfg, k) != b ==> (k in m <==> k in m') && (k in m ==> m[k] == m'[k])
    ensures var g := GroupOf(cfg, b); BucketsOk(cfg, t, g) && GroupRefines(cfg, t, m', g)
  {
    var g := GroupOf(cfg, b);
    forall i | InGroup(cfg, g, i) ensures BucketOk(cfg, t, i) {
      assert BucketOk(cfg, s, i);
    }
    forall i | InGroup(cfg, g, i) ensures ChainRefines(cfg, t.chains[i], m', i) {
      assert ChainRefines(cfg, s.chains[i], m, i);
    }
  }

  /** Every bucket of the group stays well formed and the group reads as the updated map. */
  lemma SetKeepsBuckets(cfg: Config, s: Store, m: KeyMap, key: seq<byte>, val: seq<byte>, rand: Nac)
    requires ValidConfig(cfg) && Shape(cfg, s) && NulFree(key) && Room(cfg, s, key)
    requires var g := GroupOf(cfg, BinOf(cfg, key)); BucketsOk(cfg, s, g) && GroupRefines(cfg, s, m, g)
    ensures var g := GroupOf(cfg, BinOf(cfg, key));
            var t := SetTable(cfg, s, key, val, rand);
            && OnlyBucket(cfg, s, t, BinOf(cfg, key))
            && BucketsOk(cfg, t, g) && GroupRefines(cfg, t, m[key := val], g)
  {
    var b := BinOf(cfg, key);
    var chain, pos := s.chains[b], SearchPos(cfg, s, key);
    var nac := SetNac(cfg, s, b, pos, rand);
    var t := SetTable(cfg, s, key, val, rand);
    assert InGroup(cfg, GroupOf(cfg, b), b);
    assert BucketOk(cfg, s, b) && ChainRefines(cfg, chain, m, b);
    SetKeepsEntries(cfg, chain, b, key, val, nac);
    SetRefines(cfg, chain, b, m, key, val, nac);
    if cfg.macOpt {
      SetKeepsSize(s.bufs[b], chain, Seal(cfg.cipher, key, val, nac), pos);
    }
    BucketsFrame(cfg, s, t, b, m, m[key := val]);
  }

  /** The buffer has, at the mirror of pos, the MAC of the entry at pos. */
  predicate SlotTrue(buf: MacBuf, chain: seq<Entry>, pos: nat) {
    pos < |chain| && Sized(buf, chain) ==> buf.slots[buf.size - 1 - pos] == chain[pos].mac
  }

  /** An overwrite changes one MAC of the bucket's contribution, at the index the rebuild uses. */
  lemma OverwriteContribution(cfg: Config, chain: seq<Entry>, buf: MacBuf, e: Entry, pos: nat)
    requires pos < |chain| && (cfg.macOpt ==> Sized(buf, chain) && SlotTrue(buf, chain, pos))
    ensures var before := Contribution(cfg, chain, buf);
            var after := Contribution(cfg, SetChain(chain, e, pos),
                                      if cfg.macOpt then SetBuf(buf, |chain|, e.mac, pos) else buf);
            var j := if cfg.macOpt then |after| - pos - 1 else pos;
            0 <= j < |before| && before[j] == chain[pos].mac && after == before[j := e.mac]
  {
    if !cfg.macOpt {
      assert ChainMacs(SetChain(chain, e, pos)) == ChainMacs(chain)[pos := e.mac];
    }
  }

  /** An insert adds one MAC to the bucket's contribution, at the index the rebuild uses. */
  lemma InsertContribution(cfg: Config, chain: seq<Entry>, buf: MacBuf, e: Entry)
    requires cfg.macOpt ==> Sized(buf, chain) && |chain| < SLOTS
    ensures var before := Contribution(cfg, chain, buf);
            var after := Contribution(cfg, SetChain(chain, e, |chain|),
                                      if cfg.macOpt then SetBuf(buf, |chain|, e.mac, |chain|) else buf);
            var j := if cfg.macOpt then |chain| else |after| - |chain| - 1;
            0 <= j < |after| && before == after[..j] + after[j + 1..]
  {
    if cfg.macOpt {
      var after := SetBuf(buf, |chain|, e.mac, |chain|);
      assert after.slots[..after.size][..|chain|] == buf.slots[..buf.size];
    } else {
      assert ([e] + chain)[1..] == chain;
      assert ChainMacs([e] + chain)[1..] == ChainMacs(chain);
    }
  }

  /** The rebuild undoes an overwrite, if it uses the index that was overwritten. */
  lemma RebuildAfterOverwrite(cfg: Config, s: Store, t: Store, b: nat, pos: nat, m: Mac)
    requires ValidConfig(cfg) && b < cfg.size && OnlyBucket(cfg, s, t, b)
    requires var (before, after) := (BucketMacs(cfg, s, b), BucketMacs(cfg, t, b));
             var j := if cfg.macOpt then |after| - pos - 1 else pos;
             0 <= j < |before| && pos < |s.chains[b]| && before[j] == s.chains[b][pos].mac && after == before[j := m]
    ensures RebuildUndoes(cfg, s, t, b, pos, false, s.chains[b][pos].mac)
  {
    var after := BucketMacs(cfg, t, b);
    PreviousAfterOverwrite(cfg, s, t, b, if cfg.macOpt then |after| - pos - 1 else pos, m);
    RebuildOutcome(cfg, s, t, b, pos, false, s.chains[b][pos].mac);
  }

  /** The rebuild undoes an insert, if it uses the index that was added. */
  lemma RebuildAfterInsert(cfg: Config, s: Store, t: Store, b: nat, pos: nat, prev: Mac)
    requires ValidConfig(cfg) && b < cfg.size && OnlyBucket(cfg, s, t, b)
    requires var (before, after) := (BucketMacs(cfg, s, b), BucketMacs(cfg, t, b));
             var j := if cfg.macOpt then pos else |after| - pos - 1;
             0 <= j < |after| && before == after[..j] + after[j + 1..]
    ensures RebuildUndoes(cfg, s, t, b, pos, true, prev)
  {
    var after := BucketMacs(cfg, t, b);
    PreviousAfterInsert(cfg, s, t, b, if cfg.macOpt then pos else |after| - pos - 1, prev);
    RebuildOutcome(cfg, s, t, b, pos, true, prev);
  }

  /**
   * The rebuild on t reconstructs exactly the aggregate of s, so it accepts if and only if the root
   * was right for s; it then leaves the root equal to the MAC of the aggregate of t.
   */
  ghost predicate RebuildUndoes(cfg: Config, s: Store, t: Store, b: nat, pos: nat, isInsert: bool, prev: Mac)
    requires ValidConfig(cfg) && Shape(cfg, s) && Shape(cfg, t) && b < cfg.size
  {
    var g, i := GroupOf(cfg, b), RebuildIndex(cfg, t, b, pos, isInsert);
    && 0 <= i < |GroupAgg(cfg, t, g)|
    && PreviousAgg(GroupAgg(cfg, t, g), i, isInsert, prev) == GroupAgg(cfg, s, g)
    && Decided(cfg, s, t, Rebuild(cfg, t, b, pos, isInsert, prev), g)
  }

  /** ht_set_o followed by the rebuild: the rebuild undoes the write, in both layouts. */
  lemma SetAtRebuilds(cfg: Config, s: Store, b: nat, e: Entry, pos: nat, prev: Mac)
    requires ValidConfig(cfg) && Shape(cfg, s) && b < cfg.size && pos <= |s.chains[b]|
    requires cfg.macOpt ==> Sized(s.bufs[b], s.chains[b]) && (pos == |s.chains[b]| ==> pos < SLOTS)
    requires cfg.macOpt ==> SlotTrue(s.bufs[b], s.chains[b], pos)
    requires pos < |s.chains[b]| ==> prev == s.chains[b][pos].mac
    ensures RebuildUndoes(cfg, s, SetAt(cfg, s, b, e, pos), b, pos, pos == |s.chains[b]|, prev)
  {
    hide Agg, GroupAgg, PreviousAgg, Rebuild, RebuildUndoes, ValidConfig;
    var t := SetAt(cfg, s, b, e, pos);
    assert OnlyBucket(cfg, s, t, b);
    if pos == |s.chains[b]| {
      InsertContribution(cfg, s.chains[b], s.bufs[b], e);
      RebuildAfterInsert(cfg, s, t, b, pos, prev);
    } else {
      OverwriteContribution(cfg, s.chains[b], s.bufs[b], e, pos);
      RebuildAfterOverwrite(cfg, s, t, b, pos, e.mac);
    }
  }

  /** The table with the mirror of pos made true: the table itself unless an APPEND has put another MAC there. */
  function Repaired(cfg: Config, s: Store, b: nat, pos: nat): (t: Store)
    requires Shape(cfg, s) && b < cfg.size
    ensures Shape(cfg, t)
  {
    if pos < |s.chains[b]| then SetAt(cfg, s, b, s.chains[b][pos], pos) else s
  }

  lemma RepairedIs(cfg: Config, s: Store, b: nat, pos: nat)
    requires Shape(cfg, s) && b < cfg.size && (cfg.macOpt ==> Sized(s.bufs[b], s.chains[b]))
    ensures Repaired(cfg, s, b, pos) == s <==> (cfg.macOpt ==> SlotTrue(s.bufs[b], s.chains[b], pos))
    ensures var t := Repaired(cfg, s, b, pos);
            && OnlyBucket(cfg, s, t, b) && t.chains == s.chains
            && (cfg.macOpt ==> Sized(t.bufs[b], t.chains[b]) && SlotTrue(t.bufs[b], t.chains[b], pos))
  {
    if pos < |s.chains[b]| {
      var chain, buf := s.chains[b], s.bufs[b];
      assert SetChain(chain, chain[pos], pos) == chain;
      assert s.chains[b := chain] == s.chains;
      if cfg.macOpt && SlotTrue(buf, chain, pos) {
        assert buf.slots[buf.size - pos - 1 := chain[pos].mac] == buf.slots;
        assert s.bufs[b := buf] == s.bufs;
      }
    }
  }

  /**
   * The root check of a SET, for every table with full-sized buffers and every root: it passes if
   * and only if the root was right before, once the mirror slot of an overwritten entry is made
   * true. A refused rebuild leaves the roots alone, an accepted one makes the root right.
   */
  lemma SetCheckIff(cfg: Config, s: Store, b: nat, e: Entry, pos: nat, prev: Mac)
    requires ValidConfig(cfg) && Shape(cfg, s) && b < cfg.size && pos <= |s.chains[b]|
    requires cfg.macOpt ==> Sized(s.bufs[b], s.chains[b]) && (pos == |s.chains[b]| ==> pos < SLOTS)
    requires pos < |s.chains[b]| ==> prev == s.chains[b][pos].mac
    ensures var (g, t, isInsert) := (GroupOf(cfg, b), SetAt(cfg, s, b, e, pos), pos == |s.chains[b]|);
            && 0 <= RebuildIndex(cfg, t, b, pos, isInsert) < |GroupAgg(cfg, t, g)|
            && Decided(cfg, Repaired(cfg, s, b, pos), t, Rebuild(cfg, t, b, pos, isInsert, prev), g)
  {
    var u := Repaired(cfg, s, b, pos);
    RepairedIs(cfg, s, b, pos);
    SetTwice(cfg, s, b, e, pos);
    SetAtRebuilds(cfg, u, b, e, pos, prev);
  }

  /** A repair is overwritten by the SET that follows. */
  lemma SetTwice(cfg: Config, s: Store, b: nat, e: Entry, pos: nat)
    requires Shape(cfg, s) && b < cfg.size && pos <= |s.chains[b]|
    ensures var u := Repaired(cfg, s, b, pos);
            |u.chains[b]| == |s.chains[b]| && SetAt(cfg, u, b, e, pos) == SetAt(cfg, s, b, e, pos)
  {
    if pos < |s.chains[b]| {
      var u, chain := Repaired(cfg, s, b, pos), s.chains[b];
      assert SetChain(chain, chain[pos], pos) == chain;
      assert s.chains[b := chain] == s.chains;
      if cfg.macOpt {
        assert SetBuf(u.bufs[b], |chain|, e.mac, pos) == SetBuf(s.bufs[b], |chain|, e.mac, pos);
        assert u.bufs[b := SetBuf(s.bufs[b], |chain|, e.mac, pos)] == s.bufs[b := SetBuf(s.bufs[b], |chain|, e.mac, pos)];
      }
    }
  }

  /** A rebuild that accepted: only the root of g changed, and it now authenticates the group. */
  ghost predicate Accepted(cfg: Config, t: Store, r: Rebuilt, g: nat)
    requires Shape(cfg, t) && Shape(cfg, r.store) && IsGroup(cfg, g)
  {
    && r.ok
    && RootOk(cfg, r.store, g)
    && r.store == t.(roots := t.roots[g := r.store.roots[g]])
  }

  /** A rebuild on t that accepts exactly if the root was right for s, and otherwise changes nothing. */
  ghost predicate Decided(cfg: Config, s: Store, t: Store, r: Rebuilt, g: nat)
    requires Shape(cfg, s) && Shape(cfg, t) && Shape(cfg, r.store) && IsGroup(cfg, g)
  {
    && (r.ok <==> RootOk(cfg, s, g))
    && (if r.ok then Accepted(cfg, t, r, g) else r.store == t)
  }

  /** A rebuild that reconstructs the aggregate of an earlier state decides whether the root was right for it. */
  lemma RebuildOutcome(cfg: Config, s: Store, t: Store, b: nat, pos: nat, isInsert: bool, prev: Mac)
    requires ValidConfig(cfg) && b < cfg.size && OnlyBucket(cfg, s, t, b)
    requires 0 <= RebuildIndex(cfg, t, b, pos, isInsert) < |GroupAgg(cfg, t, GroupOf(cfg, b))|
    requires PreviousAgg(GroupAgg(cfg, t, GroupOf(cfg, b)), RebuildIndex(cfg, t, b, pos, isInsert), isInsert, prev)
          == GroupAgg(cfg, s, GroupOf(cfg, b))
    ensures Decided(cfg, s, t, Rebuild(cfg, t, b, pos, isInsert, prev), GroupOf(cfg, b))
  {
    var g := GroupOf(cfg, b);
    var r := Rebuild(cfg, t, b, pos, isInsert, prev);
    RebuildKeepsAgg(cfg, t, r.store, g);
  }

  /** Aggregates do not look at the roots. */
  lemma RebuildKeepsAgg(cfg: Config, s: Store, t: Store, g: nat)
    requires Shape(cfg, s) && Shape(cfg, t) && IsGroup(cfg, g)
    requires s.chains == t.chains && s.bufs == t.bufs
    ensures GroupAgg(cfg, s, g) == GroupAgg(cfg, t, g)
  {
    AggSame(cfg, s, t, Lo(cfg, g), Hi(cfg, g));
  }

  // ---------------------------------------------------------------- whole operations

  /** The touched index is inside the aggregate whenever buffers and chains have the same sizes. */
  lemma RebuildIndexInRange(cfg: Config, t: Store, b: nat, pos: nat, isInsert: bool)
    requires ValidConfig(cfg) && Shape(cfg, t) && b < cfg.size
    requires cfg.macOpt ==> Sized(t.bufs[b], t.chains[b])
    requires pos < |t.chains[b]|
    ensures 0 <= RebuildIndex(cfg, t, b, pos, isInsert) < |GroupAgg(cfg, t, GroupOf(cfg, b))|
  {
    AggAround(cfg, t, t, b);
  }

  /** A rebuild changes at most the root of the bucket's group. */
  lemma RebuildFrame(cfg: Config, t: Store, b: nat, pos: nat, isInsert: bool, prev: Mac)
    requires ValidConfig(cfg) && Shape(cfg, t) && b < cfg.size
    requires 0 <= RebuildIndex(cfg, t, b, pos, isInsert) < |GroupAgg(cfg, t, GroupOf(cfg, b))|
    ensures var r := Rebuild(cfg, t, b, pos, isInsert, prev).store;
            && r.chains == t.chains && r.bufs == t.bufs
            && r.roots == t.roots[GroupOf(cfg, b) := r.roots[GroupOf(cfg, b)]]
  {
  }

  /** Groups are disjoint: a bucket of another group is not in this one. */
  lemma GroupsDisjoint(cfg: Config, g: nat, h: nat, b: nat)
    requires 0 < cfg.roots && InGroup(cfg, g, b) && InGroup(cfg, h, b)
    ensures g == h
  {
    if g < h {
      NextMultiple(g, h, Ratio(cfg));
    } else if h < g {
      NextMultiple(h, g, Ratio(cfg));
    }
  }

  lemma {:induction false} NextMultiple(a: nat, b: nat, r: nat)
    requires a < b
    ensures a * r + r <= b * r
  {
    if a + 1 < b {
      NextMultiple(a, b - 1, r);
    }
    assert b * r == (b - 1) * r + r;
  }

  /** A change inside group g leaves every other group as it was. */
  lemma OtherGroupsSame(cfg: Config, s: Store, t: Store, b: nat, h: nat)
    requires ValidConfig(cfg) && Shape(cfg, s) && Shape(cfg, t) && b < cfg.size && IsGroup(cfg, h)
    requires forall i :: 0 <= i < cfg.size && i != b ==> s.chains[i] == t.chains[i] && s.bufs[i] == t.bufs[i]
    requires s.roots[GroupOf(cfg, b) := t.roots[GroupOf(cfg, b)]] == t.roots
    requires h != GroupOf(cfg, b)
    ensures SameGroup(cfg, s, t, h)
  {
    forall i | InGroup(cfg, h, i) ensures s.chains[i] == t.chains[i] && s.bufs[i] == t.bufs[i] {
      if i == b {
        GroupsDisjoint(cfg, h, GroupOf(cfg, b), b);
      }
    }
  }

  /** What holds of a group depends on nothing outside the group. */
  lemma SameGroupKeeps(cfg: Config, s: Store, t: Store, m: KeyMap, g: nat)
    requires ValidConfig(cfg) && Shape(cfg, s) && Shape(cfg, t) && IsGroup(cfg, g) && SameGroup(cfg, s, t, g)
    ensures BucketsOk(cfg, s, g) ==> BucketsOk(cfg, t, g)
    ensures GroupRefines(cfg, s, m, g) ==> GroupRefines(cfg, t, m, g)
    ensures GroupIntact(cfg, s, g) ==> GroupIntact(cfg, t, g)
  {
    if BucketsOk(cfg, s, g) {
      forall i | InGroup(cfg, g, i) ensures BucketOk(cfg, t, i) {
        assert BucketOk(cfg, s, i);
      }
    }
    AggSame(cfg, s, t, Lo(cfg, g), Hi(cfg, g));
    assert GroupAgg(cfg, s, g) == GroupAgg(cfg, t, g);
  }

  /** Everything a SET promises about its group and the rest of the table. */
  lemma SetCorrect(cfg: Config, s: Store, m: KeyMap, key: seq<byte>, val: seq<byte>, rand: Nac, junk: Mac)
    requires ValidConfig(cfg) && Shape(cfg, s) && NulFree(key) && Room(cfg, s, key)
    requires var g := GroupOf(cfg, BinOf(cfg, key)); BucketsOk(cfg, s, g) && GroupRefines(cfg, s, m, g)
    ensures var b, pos := BinOf(cfg, key), SearchPos(cfg, s, key);
            var g, t, isInsert := GroupOf(cfg, b), SetTable(cfg, s, key, val, rand), pos == |s.chains[b]|;
            && OnlyBucket(cfg, s, t, b)
            && 0 <= RebuildIndex(cfg, t, b, pos, isInsert) < |GroupAgg(cfg, t, g)|
            && var r := Rebuild(cfg, t, b, pos, isInsert, PrevMac(s, b, pos, junk));
            && BucketsOk(cfg, r.store, g)
            && GroupRefines(cfg, r.store, m[key := val], g)
            && (GroupIntact(cfg, s, g) ==> r.ok && GroupIntact(cfg, r.store, g))
  {
    var b, pos := BinOf(cfg, key), SearchPos(cfg, s, key);
    var g, t, isInsert := GroupOf(cfg, b), SetTable(cfg, s, key, val, rand), pos == |s.chains[b]|;
    var e := Seal(cfg.cipher, key, val, SetNac(cfg, s, b, pos, rand));
    SetKeepsBuckets(cfg, s, m, key, val, rand);
    assert InGroup(cfg, g, b);
    assert BucketOk(cfg, s, b) && BucketOk(cfg, t, b);
    RebuildIndexInRange(cfg, t, b, pos, isInsert);
    RebuildFrame(cfg, t, b, pos, isInsert, PrevMac(s, b, pos, junk));
    var r := Rebuild(cfg, t, b, pos, isInsert, PrevMac(s, b, pos, junk));
    RootsDoNotMatter(cfg, t, r.store, m[key := val], g);
    if GroupIntact(cfg, s, g) {
      SetKeepsIntact(cfg, s, b, e, pos, PrevMac(s, b, pos, junk));
    }
  }

  lemma RootsDoNotMatter(cfg: Config, t: Store, r: Store, m: KeyMap, g: nat)
    requires ValidConfig(cfg) && Shape(cfg, t) && Shape(cfg, r) && IsGroup(cfg, g)
    requires r.chains == t.chains && r.bufs == t.bufs
    requires BucketsOk(cfg, t, g) && GroupRefines(cfg, t, m, g)
    ensures BucketsOk(cfg, r, g) && GroupRefines(cfg, r, m, g)
  {
    forall i | InGroup(cfg, g, i) ensures BucketOk(cfg, r, i) {
      assert BucketOk(cfg, t, i);
    }
  }

  /** A SET on an intact group passes its root check and leaves the group intact. */
  lemma SetKeepsIntact(cfg: Config, s: Store, b: nat, e: Entry, pos: nat, prev: Mac)
    requires ValidConfig(cfg) && Shape(cfg, s) && b < cfg.size && pos <= |s.chains[b]|
    requires GroupIntact(cfg, s, GroupOf(cfg, b))
    requires cfg.macOpt && pos == |s.chains[b]| ==> pos < SLOTS
    requires pos < |s.chains[b]| ==> prev == s.chains[b][pos].mac
    ensures var t := SetAt(cfg, s, b, e, pos);
            var isInsert := pos == |s.chains[b]|;
            && 0 <= RebuildIndex(cfg, t, b, pos, isInsert) < |GroupAgg(cfg, t, GroupOf(cfg, b))|
            && var r := Rebuild(cfg, t, b, pos, isInsert, prev);
            r.ok && GroupIntact(cfg, r.store, GroupOf(cfg, b))
  {
    var g, t := GroupOf(cfg, b), SetAt(cfg, s, b, e, pos);
    assert InGroup(cfg, g, b);
    SetAtRebuilds(cfg, s, b, e, pos, prev);
    var r := Rebuild(cfg, t, b, pos, pos == |s.chains[b]|, prev);
    if cfg.macOpt {
      SetKeepsMirror(s.bufs[b], s.chains[b], e, pos);
      forall i | InGroup(cfg, g, i) ensures Mirrors(r.store.bufs[i], r.store.chains[i]) {
        assert Mirrors(s.bufs[i], s.chains[i]);
      }
    }
  }

  // ---------------------------------------------------------------- GET

  /** enclave_verify_tree_root. */
  predicate RootVerifies(cfg: Config, s: Store, b: nat)
    requires ValidConfig(cfg) && Shape(cfg, s) && b < cfg.size
  {
    cfg.cipher.cmac(Flat(GroupAgg(cfg, s, GroupOf(cfg, b)))) == s.roots[GroupOf(cfg, b)]
  }

  /** A GET hits exactly the keys of the map, returns their values, and verifies. */
  lemma GetCorrect(cfg: Config, s: Store, m: KeyMap, key: seq<byte>)
    requires ValidConfig(cfg) && Shape(cfg, s) && NulFree(key)
    requires var g := GroupOf(cfg, BinOf(cfg, key)); BucketsOk(cfg, s, g) && GroupRefines(cfg, s, m, g)
    ensures var b, pos := BinOf(cfg, key), SearchPos(cfg, s, key);
            && (pos < |s.chains[b]| <==> key in m)
            && (key in m ==>
                  var e := s.chains[b][pos];
                  && ValIn(cfg.cipher, e) == m[key]
                  && cfg.cipher.decrypt(e.keyVal, e.nac) == key + [NUL] + m[key] + [NUL]
                  && e.mac == cfg.cipher.cmac(MacInput(e.keyVal, e.nac, e.hint, e.keySize, e.valSize))
                  && (GroupIntact(cfg, s, GroupOf(cfg, b)) ==> RootVerifies(cfg, s, b)))
  {
    var b, pos := BinOf(cfg, key), SearchPos(cfg, s, key);
    var g := GroupOf(cfg, b);
    assert InGroup(cfg, g, b);
    assert BucketOk(cfg, s, b) && ChainRefines(cfg, s.chains[b], m, b);
    assert Lookup(cfg.cipher, s.chains[b], key) == (if key in m then Some(m[key]) else None);
    if pos < |s.chains[b]| {
      MatchesIff(cfg.cipher, s.chains[b][pos], key);
      SealedVerifies(cfg.cipher, s.chains[b][pos]);
      RebuildIndexInRange(cfg, s, b, pos, true);
    }
  }

  // ---------------------------------------------------------------- APPEND

  /** The entry an APPEND seals: the old value with the new one behind it. */
  function AppendEntry(cfg: Config, e: Entry, key: seq<byte>, val: seq<byte>): Entry {
    Seal(cfg.cipher, key, ValIn(cfg.cipher, e) + val, NextNac(cfg.cipher, e))
  }

  function AppendTable(cfg: Config, s: Store, key: seq<byte>, val: seq<byte>): (t: Store)
    requires 0 < cfg.size && Shape(cfg, s) && SearchPos(cfg, s, key) < |s.chains[BinOf(cfg, key)]|
    ensures Shape(cfg, t)
  {
    var b, pos := BinOf(cfg, key), SearchPos(cfg, s, key);
    AppendAt(cfg, s, b, AppendEntry(cfg, s.chains[b][pos], key, val), pos)
  }

  /** Everything an APPEND to a present key promises, whatever the layout. */
  lemma AppendCorrect(cfg: Config, s: Store, m: KeyMap, key: seq<byte>, val: seq<byte>)
    requires ValidConfig(cfg) && Shape(cfg, s) && NulFree(key) && key in m
    requires var g := GroupOf(cfg, BinOf(cfg, key)); BucketsOk(cfg, s, g) && GroupRefines(cfg, s, m, g)
    ensures var b, pos := BinOf(cfg, key), SearchPos(cfg, s, key);
            && pos < |s.chains[b]|
            && var (g, t) := (GroupOf(cfg, b), AppendTable(cfg, s, key, val));
            && OnlyBucket(cfg, s, t, b)
            && 0 <= RebuildIndex(cfg, t, b, pos, false) < |GroupAgg(cfg, t, g)|
            && var r := Rebuild(cfg, t, b, pos, false, s.chains[b][pos].mac);
            && BucketsOk(cfg, r.store, g)
            && GroupRefines(cfg, r.store, m[key := m[key] + val], g)
            && (GroupIntact(cfg, s, g) && (cfg.macOpt ==> 2 * pos + 1 == |s.chains[b]|) ==>
                  r.ok && GroupIntact(cfg, r.store, g))
  {
    GetCorrect(cfg, s, m, key);
    var b, pos := BinOf(cfg, key), SearchPos(cfg, s, key);
    var g, t := GroupOf(cfg, b), AppendTable(cfg, s, key, val);
    var old', prev := s.chains[b][pos], s.chains[b][pos].mac;
    var e := AppendEntry(cfg, old', key, val);
    AppendKeepsBuckets(cfg, s, m, key, val, m[key] + val);
    hide BucketsOk, GroupRefines, Rebuild, RebuildIndex, GroupAgg, GroupIntact;
    RebuildReads(cfg, t, m[key := m[key] + val], b, pos, prev);
    if GroupIntact(cfg, s, g) && (cfg.macOpt ==> 2 * pos + 1 == |s.chains[b]|) {
      AlignedAppend(cfg, s, b, e, pos, prev);
    }
  }

  /** The rebuild after an overwrite is in range and leaves chains and map as they are. */
  lemma RebuildReads(cfg: Config, t: Store, m: KeyMap, b: nat, pos: nat, prev: Mac)
    requires ValidConfig(cfg) && Shape(cfg, t) && b < cfg.size && pos < |t.chains[b]|
    requires var g := GroupOf(cfg, b); BucketsOk(cfg, t, g) && GroupRefines(cfg, t, m, g)
    ensures var g := GroupOf(cfg, b);
            && 0 <= RebuildIndex(cfg, t, b, pos, false) < |GroupAgg(cfg, t, g)|
            && var r := Rebuild(cfg, t, b, pos, false, prev); BucketsOk(cfg, r.store, g) && GroupRefines(cfg, r.store, m, g)
  {
    var g := GroupOf(cfg, b);
    assert InGroup(cfg, g, b);
    assert BucketOk(cfg, t, b);
    RebuildIndexInRange(cfg, t, b, pos, false);
    RebuildFrame(cfg, t, b, pos, false, prev);
    RootsDoNotMatter(cfg, t, Rebuild(cfg, t, b, pos, false, prev).store, m, g);
  }

  /** An APPEND whose slot is its own mirror writes what a SET would. */
  lemma AlignedAppend(cfg: Config, s: Store, b: nat, e: Entry, pos: nat, prev: Mac)
    requires ValidConfig(cfg) && Shape(cfg, s) && b < cfg.size && pos < |s.chains[b]| && prev == s.chains[b][pos].mac
    requires BucketsOk(cfg, s, GroupOf(cfg, b)) && GroupIntact(cfg, s, GroupOf(cfg, b))
    requires cfg.macOpt ==> 2 * pos + 1 == |s.chains[b]|
    ensures var (g, t) := (GroupOf(cfg, b), AppendAt(cfg, s, b, e, pos));
            && 0 <= RebuildIndex(cfg, t, b, pos, false) < |GroupAgg(cfg, t, g)|
            && var r := Rebuild(cfg, t, b, pos, false, prev); r.ok && GroupIntact(cfg, r.store, g)
  {
    assert InGroup(cfg, GroupOf(cfg, b), b);
    assert BucketOk(cfg, s, b);
    assert AppendAt(cfg, s, b, e, pos) == SetAt(cfg, s, b, e, pos);
    SetKeepsIntact(cfg, s, b, e, pos, prev);
  }

  /** The bucket an APPEND leaves is the one a SET of the concatenated value would leave. */
  lemma AppendKeepsChain(cfg: Config, chain: seq<Entry>, b: nat, m: KeyMap, key: seq<byte>, val: seq<byte>,
                         pos: nat, e: Entry, v: seq<byte>)
    requires ValidConfig(cfg) && NulFree(key) && BinOf(cfg, key) == b
    requires AllSealed(cfg.cipher, chain) && InBucket(cfg, chain, b) && DistinctKeys(cfg.cipher, chain)
    requires ChainRefines(cfg, chain, m, b)
    requires pos == Find(cfg.cipher, chain, key) && pos < |chain| && v == ValIn(cfg.cipher, chain[pos]) + val
    requires e == AppendEntry(cfg, chain[pos], key, val)
    ensures var next := SetChain(chain, e, pos);
            && AllSealed(cfg.cipher, next) && InBucket(cfg, next, b) && DistinctKeys(cfg.cipher, next)
            && ChainRefines(cfg, next, m[key := v], b)
  {
    var nac := NextNac(cfg.cipher, chain[pos]);
    SetKeepsEntries(cfg, chain, b, key, v, nac);
    SetRefines(cfg, chain, b, m, key, v, nac);
  }

  lemma AppendKeepsBuckets(cfg: Config, s: Store, m: KeyMap, key: seq<byte>, val: seq<byte>, v: seq<byte>)
    requires ValidConfig(cfg) && Shape(cfg, s) && NulFree(key)
    requires var g := GroupOf(cfg, BinOf(cfg, key)); BucketsOk(cfg, s, g) && GroupRefines(cfg, s, m, g)
    requires var b, pos := BinOf(cfg, key), SearchPos(cfg, s, key);
             pos < |s.chains[b]| && v == ValIn(cfg.cipher, s.chains[b][pos]) + val
    ensures var g := GroupOf(cfg, BinOf(cfg, key));
            var t := AppendTable(cfg, s, key, val);
            && OnlyBucket(cfg, s, t, BinOf(cfg, key))
            && BucketsOk(cfg, t, g) && GroupRefines(cfg, t, m[key := v], g)
  {
    var b, pos := BinOf(cfg, key), SearchPos(cfg, s, key);
    var t, e := AppendTable(cfg, s, key, val), AppendEntry(cfg, s.chains[b][pos], key, val);
    assert InGroup(cfg, GroupOf(cfg, b), b);
    assert BucketOk(cfg, s, b) && ChainRefines(cfg, s.chains[b], m, b);
    AppendKeepsChain(cfg, s.chains[b], b, m, key, val, pos, e, v);
    BucketsFrame(cfg, s, t, b, m, m[key := v]);
  }

  /**
   * Under mac_opt an APPEND writes slot pos where the mirror of pos is wanted. The buffer still
   * mirrors the chain exactly when pos is its own mirror, or the MACs involved coincide.
   */
  lemma AppendMirrorsIff(buf: MacBuf, chain: seq<Entry>, e: Entry, pos: nat)
    requires Mirrors(buf, chain) && pos < |chain|
    ensures Mirrors(PutSlot(buf, pos, e.mac), SetChain(chain, e, pos)) <==>
            (2 * pos + 1 == |chain| || (e.mac == chain[pos].mac && e.mac == chain[|chain| - 1 - pos].mac))
  {
    var next, put, q := SetChain(chain, e, pos), PutSlot(buf, pos, e.mac), |chain| - 1 - pos;
    assert buf.slots[pos] == chain[q].mac && buf.slots[q] == chain[pos].mac;
    assert next[pos].mac == e.mac;
    if q != pos {
      assert put.slots[buf.size - 1 - pos] == chain[pos].mac;
      assert put.slots[buf.size - 1 - q] == e.mac;
      assert next[q].mac == chain[q].mac;
    }
  }

  /**
   * The same slip seen by the rebuild: it reconstructs the aggregate from before the APPEND
   * exactly when pos is its own mirror, or the overwritten slot held the new MAC already.
   */
  lemma AppendReconstructsIff(cfg: Config, s: Store, b: nat, e: Entry, pos: nat)
    requires ValidConfig(cfg) && cfg.macOpt && Shape(cfg, s) && b < cfg.size
    requires pos < |s.chains[b]| && Mirrors(s.bufs[b], s.chains[b])
    ensures var (g, t) := (GroupOf(cfg, b), AppendAt(cfg, s, b, e, pos));
            var i := RebuildIndex(cfg, t, b, pos, false);
            && 0 <= i < |GroupAgg(cfg, t, g)|
            && (PreviousAgg(GroupAgg(cfg, t, g), i, false, s.chains[b][pos].mac) == GroupAgg(cfg, s, g) <==>
                  (2 * pos + 1 == |s.chains[b]| || e.mac == s.chains[b][|s.chains[b]| - 1 - pos].mac))
  {
    hide Agg, GroupAgg, Mirrors;
    var g, t := GroupOf(cfg, b), AppendAt(cfg, s, b, e, pos);
    var chain, q := s.chains[b], |s.chains[b]| - 1 - pos;
    var before, after := BucketMacs(cfg, s, b), BucketMacs(cfg, t, b);
    AppendContribution(cfg, s, b, e, pos);
    AggAround(cfg, s, t, b);
    RebuildIndexInRange(cfg, t, b, pos, false);
    var left, right := Agg(cfg, s, Lo(cfg, g), b), Agg(cfg, s, b + 1, Hi(cfg, g));
    WrongSlot(left, before, right, pos, q, e.mac);
  }

  /** What an APPEND does to the MACs of its bucket, and where the chain's MACs are among them. */
  lemma AppendContribution(cfg: Config, s: Store, b: nat, e: Entry, pos: nat)
    requires cfg.macOpt && Shape(cfg, s) && b < cfg.size
    requires pos < |s.chains[b]| && Mirrors(s.bufs[b], s.chains[b])
    ensures var (chain, t, q) := (s.chains[b], AppendAt(cfg, s, b, e, pos), |s.chains[b]| - 1 - pos);
            var before, after := BucketMacs(cfg, s, b), BucketMacs(cfg, t, b);
            && |before| == |chain| && after == before[pos := e.mac]
            && before[q] == chain[pos].mac && before[pos] == chain[q].mac
            && Sized(t.bufs[b], t.chains[b]) && OnlyBucket(cfg, s, t, b)
  {
  }

  lemma WrongSlot<T>(left: seq<T>, mid: seq<T>, right: seq<T>, p: nat, q: nat, x: T)
    requires p < |mid| && q < |mid|
    ensures ((left + mid[p := x] + right)[|left| + q := mid[q]] == left + mid + right) <==> (p == q || mid[p] == x)
  {
    var all := (left + mid[p := x] + right)[|left| + q := mid[q]];
    if p != q {
      assert all[|left| + p] == x;
      assert (left + mid + right)[|left| + p] == mid[p];
    }
  }

  /** The table that the rebuild after an APPEND takes to have been there before: the old entry, and its MAC at the mirror. */
  function AppendUndone(cfg: Config, s: Store, b: nat, e: Entry, pos: nat): (t: Store)
    requires Shape(cfg, s) && b < cfg.size && pos < |s.chains[b]|
    ensures Shape(cfg, t)
  {
    SetAt(cfg, AppendAt(cfg, s, b, e, pos), b, s.chains[b][pos], pos)
  }

  /** The root check of an APPEND, for every table with full-sized buffers and every root. */
  lemma AppendDecides(cfg: Config, s: Store, b: nat, e: Entry, pos: nat)
    requires ValidConfig(cfg) && Shape(cfg, s) && b < cfg.size && pos < |s.chains[b]|
    requires cfg.macOpt ==> Sized(s.bufs[b], s.chains[b])
    ensures var (g, t, u) := (GroupOf(cfg, b), AppendAt(cfg, s, b, e, pos), AppendUndone(cfg, s, b, e, pos));
            && 0 <= RebuildIndex(cfg, t, b, pos, false) < |GroupAgg(cfg, t, g)|
            && Decided(cfg, u, t, Rebuild(cfg, t, b, pos, false, s.chains[b][pos].mac), g)
  {
    hide Agg, GroupAgg, PreviousAgg, Rebuild, Decided, ValidConfig;
    var t, u := AppendAt(cfg, s, b, e, pos), AppendUndone(cfg, s, b, e, pos);
    assert OnlyBucket(cfg, u, t, b);
    var before, after := BucketMacs(cfg, u, b), BucketMacs(cfg, t, b);
    var j := if cfg.macOpt then |after| - pos - 1 else pos;
    assert 0 <= j < |before| && before[j] == s.chains[b][pos].mac && after == before[j := after[j]];
    RebuildAfterOverwrite(cfg, u, t, b, pos, after[j]);
  }

  /** Without mac_opt, or at a position that is its own mirror, that is the table before, repaired. */
  lemma AppendUndoneIs(cfg: Config, s: Store, b: nat, e: Entry, pos: nat)
    requires Shape(cfg, s) && b < cfg.size && pos < |s.chains[b]|
    requires cfg.macOpt ==> Sized(s.bufs[b], s.chains[b]) && 2 * pos + 1 == |s.chains[b]|
    ensures AppendUndone(cfg, s, b, e, pos) == Repaired(cfg, s, b, pos)
  {
    var chain, buf := s.chains[b], s.bufs[b];
    assert SetChain(SetChain(chain, e, pos), chain[pos], pos) == SetChain(chain, chain[pos], pos);
    assert AppendUndone(cfg, s, b, e, pos).chains == Repaired(cfg, s, b, pos).chains;
    if cfg.macOpt {
      assert buf.slots[pos := e.mac][pos := chain[pos].mac] == buf.slots[pos := chain[pos].mac];
      assert AppendUndone(cfg, s, b, e, pos).bufs == Repaired(cfg, s, b, pos).bufs;
    }
  }

  lemma {:induction false} FlatInjective(a: seq<Mac>, b: seq<Mac>)
    requires |a| == |b| && Flat(a) == Flat(b)
    ensures a == b
    decreases |a|
  {
    if a != [] {
      var k := BLOCK * (|a| - 1);
      assert Flat(a)[..k] == Flat(a[..|a| - 1]) && Flat(a)[k..] == a[|a| - 1];
      assert Flat(b)[..k] == Flat(b[..|b| - 1]) && Flat(b)[k..] == b[|b| - 1];
      FlatInjective(a[..|a| - 1], b[..|b| - 1]);
      assert a == a[..|a| - 1] + [a[|a| - 1]] && b == b[..|b| - 1] + [b[|b| - 1]];
    }
  }

  /**
   * Hence, on an intact group and short of a MAC collision, the root check after an APPEND under
   * mac_opt passes exactly when pos is its own mirror, or the overwritten slot held the new MAC.
   */
  lemma AppendCheckIff(cfg: Config, s: Store, b: nat, e: Entry, pos: nat)
    requires ValidConfig(cfg) && cfg.macOpt && Shape(cfg, s) && b < cfg.size && pos < |s.chains[b]|
    requires GroupIntact(cfg, s, GroupOf(cfg, b))
    ensures var (g, t, prev) := (GroupOf(cfg, b), AppendAt(cfg, s, b, e, pos), s.chains[b][pos].mac);
            var i := RebuildIndex(cfg, t, b, pos, false);
            && 0 <= i < |GroupAgg(cfg, t, g)|
            && var was, back := Flat(GroupAgg(cfg, s, g)), Flat(PreviousAgg(GroupAgg(cfg, t, g), i, false, prev));
               (cfg.cipher.cmac(back) == cfg.cipher.cmac(was) ==> back == was) ==>
                 (Rebuild(cfg, t, b, pos, false, prev).ok <==>
                    (2 * pos + 1 == |s.chains[b]| || e.mac == s.chains[b][|s.chains[b]| - 1 - pos].mac))
  {
    var g, t, prev := GroupOf(cfg, b), AppendAt(cfg, s, b, e, pos), s.chains[b][pos].mac;
    assert Mirrors(s.bufs[b], s.chains[b]);
    AppendReconstructsIff(cfg, s, b, e, pos);
    AppendAggLength(cfg, s, b, e, pos);
    var back := PreviousAgg(GroupAgg(cfg, t, g), RebuildIndex(cfg, t, b, pos, false), false, prev);
    if Flat(back) == Flat(GroupAgg(cfg, s, g)) {
      FlatInjective(back, GroupAgg(cfg, s, g));
    }
  }

  /** An APPEND changes MACs, not how many there are. */
  lemma AppendAggLength(cfg: Config, s: Store, b: nat, e: Entry, pos: nat)
    requires ValidConfig(cfg) && cfg.macOpt && Shape(cfg, s) && b < cfg.size && pos < |s.chains[b]|
    requires Sized(s.bufs[b], s.chains[b])
    ensures var g := GroupOf(cfg, b);
            0 < |GroupAgg(cfg, AppendAt(cfg, s, b, e, pos), g)| == |GroupAgg(cfg, s, g)|
  {
    AggAround(cfg, s, AppendAt(cfg, s, b, e, pos), b);
  }
}
