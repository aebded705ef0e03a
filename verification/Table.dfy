/**
 * The encrypted chained table as a value: buckets of sealed entries, one MAC buffer per bucket,
 * and one root per group of consecutive buckets. Each operation of the store is a function here;
 * the class in ShieldStore.dfy runs the loops and is proved against these functions.
 */
module Table {
  import opened Collections
  import opened Bytes
  import opened Crypto
  import KeyHash
  import Partition

  datatype Entry = Entry(keySize: nat, valSize: nat, hint: byte, keyVal: seq<byte>, nac: Nac, mac: Mac)

  /** Slots of one MAC buffer. */
  const SLOTS: nat := 30

  datatype MacBuf = MacBuf(size: nat, slots: seq<Mac>)

  datatype Config = Config(size: nat, roots: nat, maxBuf: nat, keyOpt: bool, macOpt: bool, cipher: Cipher)

  datatype Store = Store(chains: seq<seq<Entry>>, bufs: seq<MacBuf>, roots: seq<Mac>)

  /** The table size is a positive multiple of the number of roots. */
  ghost predicate ValidConfig(cfg: Config) {
    && 0 < cfg.roots
    && 0 < cfg.size
    && cfg.size % cfg.roots == 0
    && Lawful(cfg.cipher)
  }

  /** Buckets covered by one root. */
  function Ratio(cfg: Config): (r: nat)
    requires 0 < cfg.roots
  {
    cfg.size / cfg.roots
  }

  function BinOf(cfg: Config, key: seq<byte>): (b: nat)
    requires 0 < cfg.size
    ensures b < cfg.size
  {
    KeyHash.Bucket(key, cfg.size)
  }

  lemma RatioDivides(cfg: Config)
    requires ValidConfig(cfg)
    ensures 0 < Ratio(cfg) && Ratio(cfg) * cfg.roots == cfg.size
  {
    assert cfg.size == cfg.roots * (cfg.size / cfg.roots);
  }

  /** First bucket of group g. */
  function Lo(cfg: Config, g: nat): nat
    requires 0 < cfg.roots
  {
    g * Ratio(cfg)
  }

  /** One past the last bucket of group g. */
  function Hi(cfg: Config, g: nat): (r: nat)
    requires 0 < cfg.roots
    ensures Lo(cfg, g) <= r
  {
    g * Ratio(cfg) + Ratio(cfg)
  }

  /** A root index whose whole group of buckets lies inside the table. */
  predicate IsGroup(cfg: Config, g: nat) {
    g < cfg.roots && Hi(cfg, g) <= cfg.size
  }

  /** The buckets of group g. */
  predicate InGroup(cfg: Config, g: nat, b: int)
    requires 0 < cfg.roots
  {
    Lo(cfg, g) <= b < Hi(cfg, g)
  }

  /** The root index of a bucket: always in range, and its group holds the bucket. */
  function GroupOf(cfg: Config, b: nat): (g: nat)
    requires ValidConfig(cfg) && b < cfg.size
    ensures IsGroup(cfg, g) && InGroup(cfg, g, b)
  {
    RatioDivides(cfg);
    GroupInRange(cfg, b);
    b / Ratio(cfg)
  }

  lemma GroupInRange(cfg: Config, b: nat)
    requires ValidConfig(cfg) && b < cfg.size && 0 < Ratio(cfg)
    ensures IsGroup(cfg, b / Ratio(cfg)) && InGroup(cfg, b / Ratio(cfg), b)
  {
    RatioDivides(cfg);
    var r, g := Ratio(cfg), b / Ratio(cfg);
    Partition.DivBounds(b, r);
    if cfg.roots <= g {
      Partition.MulLe(cfg.roots, g, r);
    }
    Partition.MulLe(g + 1, cfg.roots, r);
  }

  predicate Shape(cfg: Config, s: Store) {
    && |s.chains| == cfg.size
    && |s.bufs| == cfg.size
    && |s.roots| == cfg.roots
    && forall b :: 0 <= b < |s.bufs| ==> |s.bufs[b].slots| == SLOTS
  }

  // ---------------------------------------------------------------- entries

  /** Encrypt key and value together under a counter block and authenticate the result. */
  function Seal(c: Cipher, key: seq<byte>, val: seq<byte>, nac: Nac): Entry {
    var kv := c.encrypt(key + [NUL] + val + [NUL], nac);
    Entry(|key| + 1, |val| + 1, KeyHash.Hint(key), kv, nac,
          c.cmac(MacInput(kv, nac, KeyHash.Hint(key), |key| + 1, |val| + 1)))
  }

  function KeyIn(c: Cipher, e: Entry): seq<byte> {
    var p := c.decrypt(e.keyVal, e.nac);
    if 1 <= e.keySize <= |p| then p[..e.keySize - 1] else []
  }

  function ValIn(c: Cipher, e: Entry): seq<byte> {
    var p := c.decrypt(e.keyVal, e.nac);
    if e.keySize < |p| then p[e.keySize..|p| - 1] else []
  }

  /** The counter block left by decrypting an entry; an update goes on from it. */
  function NextNac(c: Cipher, e: Entry): Nac {
    c.advance(e.nac, e.keySize + e.valSize)
  }

  /** An entry that is exactly the sealing of some key and value. */
  predicate Sealed(c: Cipher, e: Entry) {
    && NulFree(KeyIn(c, e))
    && e == Seal(c, KeyIn(c, e), ValIn(c, e), e.nac)
  }

  /** Opening a sealed entry gives back the key and the value that went in. */
  lemma SealOpens(c: Cipher, key: seq<byte>, val: seq<byte>, nac: Nac)
    requires Lawful(c)
    ensures KeyIn(c, Seal(c, key, val, nac)) == key
    ensures ValIn(c, Seal(c, key, val, nac)) == val
  {
    var p := key + [NUL] + val + [NUL];
    assert c.decrypt(c.encrypt(p, nac), nac) == p;
    assert p[..|key|] == key && p[|key| + 1..|p| - 1] == val;
  }

  /** Every sealed entry passes enclave_verification, and decrypting it leaves the counter block past its whole text. */
  lemma SealedVerifies(c: Cipher, e: Entry)
    requires Lawful(c) && Sealed(c, e)
    ensures e.mac == c.cmac(MacInput(e.keyVal, e.nac, e.hint, e.keySize, e.valSize))
    ensures |e.keyVal| == e.keySize + e.valSize && NextNac(c, e) == c.advance(e.nac, |e.keyVal|)
    ensures c.decrypt(e.keyVal, e.nac) == KeyIn(c, e) + [NUL] + ValIn(c, e) + [NUL]
  {
    var p := KeyIn(c, e) + [NUL] + ValIn(c, e) + [NUL];
    assert |c.encrypt(p, e.nac)| == |p| && c.decrypt(c.encrypt(p, e.nac), e.nac) == p;
  }

  /** The size test and the comparison of the first bytes of the decrypted text with the key. */
  predicate Matches(c: Cipher, e: Entry, key: seq<byte>) {
    e.keySize == |key| + 1 && key + [NUL] <= c.decrypt(e.keyVal, e.nac)
  }

  lemma MatchesIff(c: Cipher, e: Entry, key: seq<byte>)
    requires Lawful(c) && Sealed(c, e)
    ensures Matches(c, e, key) <==> KeyIn(c, e) == key
  {
    SealedVerifies(c, e);
    var k := KeyIn(c, e);
    var p := c.decrypt(e.keyVal, e.nac);
    assert e.keySize == |k| + 1;
    if Matches(c, e, key) {
      assert k == p[..|k|] == (key + [NUL])[..|k|] == key;
    }
    if k == key {
      assert p[..|k| + 1] == k + [NUL];
    }
  }

  // ---------------------------------------------------------------- search

  /** Position of the first matching entry, or the chain length. */
  function Find(c: Cipher, chain: seq<Entry>, key: seq<byte>): (p: nat)
    ensures p <= |chain|
    ensures p < |chain| ==> Matches(c, chain[p], key)
    ensures forall i :: 0 <= i < p ==> !Matches(c, chain[i], key)
  {
    if chain == [] || Matches(c, chain[0], key) then 0 else 1 + Find(c, chain[1..], key)
  }

  /** The same search with the one-byte hint tested before decrypting. */
  function HintFind(c: Cipher, chain: seq<Entry>, key: seq<byte>): (p: nat)
    ensures p <= |chain|
    ensures p < |chain| ==> Matches(c, chain[p], key) && chain[p].hint == KeyHash.Hint(key)
    ensures forall i :: 0 <= i < p ==> !(Matches(c, chain[i], key) && chain[i].hint == KeyHash.Hint(key))
  {
    if chain == [] || (Matches(c, chain[0], key) && chain[0].hint == KeyHash.Hint(key)) then 0
    else 1 + HintFind(c, chain[1..], key)
  }

  ghost predicate AllSealed(c: Cipher, chain: seq<Entry>) {
    forall i :: 0 <= i < |chain| ==> Sealed(c, chain[i])
  }

  /** The hint search finds the same entry at the same position as the plain search. */
  lemma HintSearchAgrees(c: Cipher, chain: seq<Entry>, key: seq<byte>)
    requires Lawful(c) && AllSealed(c, chain)
    ensures HintFind(c, chain, key) == Find(c, chain, key)
  {
    var p, q := Find(c, chain, key), HintFind(c, chain, key);
    if p < |chain| {
      MatchesIff(c, chain[p], key);
    }
  }

  /** A position with the properties of Find is the result of Find. */
  lemma FindIs(c: Cipher, chain: seq<Entry>, key: seq<byte>, p: nat)
    requires p <= |chain| && (p < |chain| ==> Matches(c, chain[p], key))
    requires forall i :: 0 <= i < p ==> !Matches(c, chain[i], key)
    ensures Find(c, chain, key) == p
  {
  }

  function Lookup(c: Cipher, chain: seq<Entry>, key: seq<byte>): Option<seq<byte>> {
    var p := Find(c, chain, key);
    if p < |chain| then Some(ValIn(c, chain[p])) else None
  }

  // ---------------------------------------------------------------- table updates

  function PutSlot(buf: MacBuf, i: int, m: Mac): (r: MacBuf)
    ensures |r.slots| == |buf.slots| && r.size == buf.size
  {
    if 0 <= i < |buf.slots| then buf.(slots := buf.slots[i := m]) else buf
  }

  /** Overwrite of an existing entry: key size and hint stay. */
  function Overwrite(prior: Entry, e: Entry): Entry {
    prior.(keyVal := e.keyVal, nac := e.nac, mac := e.mac, valSize := e.valSize)
  }

  /** The chain after ht_set_o: overwritten at pos, or extended at its head when pos is its length. */
  function SetChain(chain: seq<Entry>, e: Entry, pos: nat): seq<Entry>
    requires pos <= |chain|
  {
    if pos < |chain| then chain[pos := Overwrite(chain[pos], e)] else [e] + chain
  }

  /** The MAC buffer after ht_set_o: the mirror slot of pos, or the next free slot. */
  function SetBuf(buf: MacBuf, chainLen: nat, m: Mac, pos: nat): (r: MacBuf)
    ensures |r.slots| == |buf.slots|
  {
    if pos < chainLen then PutSlot(buf, buf.size - pos - 1, m)
    else PutSlot(MacBuf(buf.size + 1, buf.slots), pos, m)
  }

  /** ht_set_o on bucket b. */
  function SetAt(cfg: Config, s: Store, b: nat, e: Entry, pos: nat): (t: Store)
    requires Shape(cfg, s) && b < cfg.size && pos <= |s.chains[b]|
    ensures Shape(cfg, t)
  {
    Store(s.chains[b := SetChain(s.chains[b], e, pos)],
          if cfg.macOpt then s.bufs[b := SetBuf(s.bufs[b], |s.chains[b]|, e.mac, pos)] else s.bufs,
          s.roots)
  }

  /** ht_append_o on bucket b: like an overwrite, but the MAC goes to slot pos, not to its mirror. */
  function AppendAt(cfg: Config, s: Store, b: nat, e: Entry, pos: nat): (t: Store)
    requires Shape(cfg, s) && b < cfg.size && pos < |s.chains[b]|
    ensures Shape(cfg, t)
  {
    Store(s.chains[b := SetChain(s.chains[b], e, pos)],
          if cfg.macOpt then s.bufs[b := PutSlot(s.bufs[b], pos, e.mac)] else s.bufs,
          s.roots)
  }

  // ---------------------------------------------------------------- aggregates and roots

  function ChainMacs(chain: seq<Entry>): (r: seq<Mac>)
    ensures |r| == |chain| && forall i :: 0 <= i < |r| ==> r[i] == chain[i].mac
  {
    seq(|chain|, i requires 0 <= i < |chain| => chain[i].mac)
  }

  /** The MACs a bucket contributes: its buffer under mac_opt, its chain otherwise. */
  function Contribution(cfg: Config, chain: seq<Entry>, buf: MacBuf): seq<Mac> {
    if cfg.macOpt then (if buf.size <= |buf.slots| then buf.slots[..buf.size] else buf.slots)
    else ChainMacs(chain)
  }

  function BucketMacs(cfg: Config, s: Store, b: nat): seq<Mac>
    requires b < |s.chains| && b < |s.bufs|
  {
    Contribution(cfg, s.chains[b], s.bufs[b])
  }

  /** The MACs of buckets lo up to hi, in order. */
  function Agg(cfg: Config, s: Store, lo: nat, hi: nat): seq<Mac>
    requires lo <= hi <= |s.chains| && hi <= |s.bufs|
    decreases hi
  {
    if lo == hi then [] else Agg(cfg, s, lo, hi - 1) + BucketMacs(cfg, s, hi - 1)
  }

  function GroupAgg(cfg: Config, s: Store, g: nat): seq<Mac>
    requires Shape(cfg, s) && IsGroup(cfg, g)
  {
    Agg(cfg, s, Lo(cfg, g), Hi(cfg, g))
  }

  /** Index, inside the aggregate of the group, of the MAC that the last update touched. */
  function TouchedIndex(cfg: Config, before: nat, cur: nat, pos: nat, isInsert: bool): int {
    if cfg.macOpt then (if isInsert then before + pos else before + (cur - pos - 1))
    else (if isInsert then before + (cur - pos - 1) else before + pos)
  }

  /** The aggregate with the touched MAC taken back: dropped after an insert, restored otherwise. */
  function PreviousAgg(agg: seq<Mac>, i: int, isInsert: bool, prev: Mac): seq<Mac>
    requires 0 <= i < |agg|
  {
    if isInsert then agg[..i] + agg[i + 1..] else agg[i := prev]
  }

  datatype Rebuilt = Rebuilt(ok: bool, store: Store)

  /** The index that the rebuild computes for a bucket and a chain position. */
  function RebuildIndex(cfg: Config, s: Store, b: nat, pos: nat, isInsert: bool): int
    requires ValidConfig(cfg) && Shape(cfg, s) && b < cfg.size
  {
    TouchedIndex(cfg, |Agg(cfg, s, Lo(cfg, GroupOf(cfg, b)), b)|, |BucketMacs(cfg, s, b)|, pos, isInsert)
  }

  /** enclave_rebuild_tree_root on values. */
  function Rebuild(cfg: Config, s: Store, b: nat, pos: nat, isInsert: bool, prev: Mac): (r: Rebuilt)
    requires ValidConfig(cfg) && Shape(cfg, s) && b < cfg.size
    requires 0 <= RebuildIndex(cfg, s, b, pos, isInsert) < |GroupAgg(cfg, s, GroupOf(cfg, b))|
    ensures Shape(cfg, r.store)
  {
    var g := GroupOf(cfg, b);
    var agg := GroupAgg(cfg, s, g);
    var prevAgg := PreviousAgg(agg, RebuildIndex(cfg, s, b, pos, isInsert), isInsert, prev);
    if (isInsert && |agg| <= 1) || cfg.cipher.cmac(Flat(prevAgg)) == s.roots[g] then
      Rebuilt(true, s.(roots := s.roots[g := cfg.cipher.cmac(Flat(agg))]))
    else
      Rebuilt(false, s)
  }

  // ---------------------------------------------------------------- invariants

  /** The buffer of a bucket counts as many MACs as its chain has entries, and they fit. */
  predicate Sized(buf: MacBuf, chain: seq<Entry>) {
    buf.size == |chain| && |buf.slots| == SLOTS && buf.size <= SLOTS
  }

  /** The buffer of a bucket holds its chain's MACs in exactly the reverse order. */
  predicate Mirrors(buf: MacBuf, chain: seq<Entry>) {
    && Sized(buf, chain)
    && forall i :: 0 <= i < |chain| ==> buf.slots[buf.size - 1 - i] == chain[i].mac
  }

  ghost predicate DistinctKeys(c: Cipher, chain: seq<Entry>) {
    forall i, j :: 0 <= i < j < |chain| ==> KeyIn(c, chain[i]) != KeyIn(c, chain[j])
  }

  ghost predicate InBucket(cfg: Config, chain: seq<Entry>, b: nat)
    requires 0 < cfg.size
  {
    forall i :: 0 <= i < |chain| ==> BinOf(cfg, KeyIn(cfg.cipher, chain[i])) == b
  }

  /** One bucket: sealed entries of its own keys, no key twice, and under mac_opt a full-sized buffer. */
  ghost predicate ChainOk(cfg: Config, chain: seq<Entry>, buf: MacBuf, b: nat)
    requires 0 < cfg.size
  {
    && AllSealed(cfg.cipher, chain)
    && InBucket(cfg, chain, b)
    && DistinctKeys(cfg.cipher, chain)
    && (cfg.macOpt ==> Sized(buf, chain))
  }

  ghost predicate BucketOk(cfg: Config, s: Store, b: nat)
    requires 0 < cfg.size && Shape(cfg, s) && b < cfg.size
  {
    ChainOk(cfg, s.chains[b], s.bufs[b], b)
  }

  /** A non-empty group's root is the MAC of its current aggregate. */
  predicate RootOk(cfg: Config, s: Store, g: nat)
    requires Shape(cfg, s) && IsGroup(cfg, g)
  {
    GroupAgg(cfg, s, g) != [] ==> s.roots[g] == cfg.cipher.cmac(Flat(GroupAgg(cfg, s, g)))
  }

  ghost predicate BucketsOk(cfg: Config, s: Store, g: nat)
    requires ValidConfig(cfg) && Shape(cfg, s) && IsGroup(cfg, g)
  {
    forall b :: InGroup(cfg, g, b) ==> BucketOk(cfg, s, b)
  }

  /** Under mac_opt, the buffers of the group mirror their chains. */
  ghost predicate GroupMirrored(cfg: Config, s: Store, g: nat)
    requires Shape(cfg, s) && IsGroup(cfg, g)
  {
    cfg.macOpt ==> forall b :: InGroup(cfg, g, b) ==> Mirrors(s.bufs[b], s.chains[b])
  }

  /** The integrity data of a group: mirrored buffers and a root that authenticates it. */
  ghost predicate GroupIntact(cfg: Config, s: Store, g: nat)
    requires Shape(cfg, s) && IsGroup(cfg, g)
  {
    GroupMirrored(cfg, s, g) && RootOk(cfg, s, g)
  }

  /** The keys of one bucket read the same in the chain and in a plain map. */
  ghost predicate ChainRefines(cfg: Config, chain: seq<Entry>, m: map<seq<byte>, seq<byte>>, b: nat)
    requires 0 < cfg.size
  {
    forall key :: NulFree(key) && BinOf(cfg, key) == b ==>
      Lookup(cfg.cipher, chain, key) == (if key in m then Some(m[key]) else None)
  }

  ghost predicate GroupRefines(cfg: Config, s: Store, m: map<seq<byte>, seq<byte>>, g: nat)
    requires ValidConfig(cfg) && Shape(cfg, s) && IsGroup(cfg, g)
  {
    forall b :: InGroup(cfg, g, b) ==> ChainRefines(cfg, s.chains[b], m, b)
  }

  /** Two stores hold the same chains, buffers and root for group g. */
  ghost predicate SameGroup(cfg: Config, s: Store, t: Store, g: nat)
    requires ValidConfig(cfg) && Shape(cfg, s) && Shape(cfg, t) && IsGroup(cfg, g)
  {
    && s.roots[g] == t.roots[g]
    && forall b :: InGroup(cfg, g, b) ==> s.chains[b] == t.chains[b] && s.bufs[b] == t.bufs[b]
  }
}
