/**
 * The shielded store as the enclave runs it: loops over chains and MAC buffers that update the
 * tables in place, each proved against the functions of Table.dfy.
 */
module ShieldStore {
  import opened Bytes
  import opened Crypto
  import opened Table
  import opened TableProofs
  import opened Requests
  import KeyHash
  import Workers
  import WorkersProofs

  /** memcpy of whole MACs into an aggregate buffer. */
  method CopyMacs(dst: array<Mac>, at: nat, src: seq<Mac>)
    requires at + |src| <= dst.Length
    modifies dst
    ensures dst[..] == old(dst[..])[..at] + src + old(dst[..])[at + |src|..]
  {
    var i := 0;
    while i < |src|
      invariant 0 <= i <= |src|
      invariant dst[..] == old(dst[..])[..at] + src[..i] + old(dst[..])[at + i..]
    {
      dst[at + i] := src[i];
      i := i + 1;
    }
    assert src[..i] == src;
  }

  /** The search loop without the key optimization: test the size, decrypt, compare. */
  method PlainSearch(c: Cipher, chain: seq<Entry>, key: seq<byte>) returns (pos: nat)
    ensures pos == Find(c, chain, key)
  {
    pos := 0;
    while pos < |chain|
      invariant 0 <= pos <= |chain|
      invariant forall i :: 0 <= i < pos ==> !Matches(c, chain[i], key)
    {
      if chain[pos].keySize == |key| + 1 {
        var plain := c.decrypt(chain[pos].keyVal, chain[pos].nac);
        if key + [NUL] <= plain {
          break;
        }
      }
      pos := pos + 1;
    }
    FindIs(c, chain, key, pos);
  }

  /** The search loop with the key optimization: the hint is tested before decrypting. */
  method HintSearch(c: Cipher, chain: seq<Entry>, key: seq<byte>) returns (pos: nat)
    ensures pos == HintFind(c, chain, key)
  {
    pos := 0;
    var hint := KeyHash.KeyHashFunc(key);
    while pos < |chain|
      invariant 0 <= pos <= |chain|
      invariant forall i :: 0 <= i < pos ==> !(Matches(c, chain[i], key) && chain[i].hint == hint)
    {
      if chain[pos].keySize == |key| + 1 && chain[pos].hint == hint {
        var plain := c.decrypt(chain[pos].keyVal, chain[pos].nac);
        if key + [NUL] <= plain {
          break;
        }
      }
      pos := pos + 1;
    }
    assert pos == HintFind(c, chain, key);
  }

  class Shield {
    const cfg: Config
    const table: array<seq<Entry>>
    const bufs: array<MacBuf>
    const roots: array<Mac>

    ghost predicate Valid()
      reads table, bufs, roots
    {
      ValidConfig(cfg) && Shape(cfg, Abs())
    }

    ghost function Abs(): Store
      reads table, bufs, roots
    {
      Store(table[..], bufs[..], roots[..])
    }

    /** Empty chains, empty buffers and zeroed roots. */
    constructor (cfg: Config)
      requires ValidConfig(cfg)
      ensures Valid() && this.cfg == cfg && fresh(table) && fresh(bufs) && fresh(roots)
      ensures forall b :: 0 <= b < cfg.size ==> Abs().chains[b] == [] && Abs().bufs[b].size == 0
    {
      this.cfg := cfg;
      var zero: Mac := seq(16, i => 0);
      table := new seq<Entry>[cfg.size](i => []);
      bufs := new MacBuf[cfg.size](i => MacBuf(0, seq(SLOTS, j => zero)));
      roots := new Mac[cfg.roots](i => zero);
    }

    /** ht_get_o: both searches leave pos at the chain length on a miss. */
    method HtGet(key: seq<byte>) returns (found: bool, pos: nat, plain: seq<byte>, updatedNac: Nac)
      requires Valid()
      ensures pos == Workers.SearchIn(cfg, Abs().chains[BinOf(cfg, key)], key)
      ensures found <==> pos < |Abs().chains[BinOf(cfg, key)]|
      ensures found ==>
                var e := Abs().chains[BinOf(cfg, key)][pos];
                plain == cfg.cipher.decrypt(e.keyVal, e.nac) && updatedNac == NextNac(cfg.cipher, e)
    {
      var bin := KeyHash.HtHash(key, cfg.size);
      var chain := table[bin];
      if cfg.keyOpt {
        pos := HintSearch(cfg.cipher, chain, key);
      } else {
        pos := PlainSearch(cfg.cipher, chain, key);
      }
      plain, updatedNac := [], seq(16, i => 0);
      found := pos < |chain|;
      if found {
        plain := cfg.cipher.decrypt(chain[pos].keyVal, chain[pos].nac);
        updatedNac := NextNac(cfg.cipher, chain[pos]);
      }
    }

    /** enclave_encrypt: cipher text and MAC of a key and value. */
    method Encrypt(key: seq<byte>, val: seq<byte>, nac: Nac) returns (e: Entry)
      ensures e == Seal(cfg.cipher, key, val, nac)
    {
      var hint := KeyHash.KeyHashFunc(key);
      var text := cfg.cipher.encrypt(key + [NUL] + val + [NUL], nac);
      var all := text + nac + [hint] + Le32(|key| + 1) + Le32(|val| + 1);
      e := Entry(|key| + 1, |val| + 1, hint, text, nac, cfg.cipher.cmac(all));
    }

    /** ht_set_o. */
    method HtSet(found: bool, key: seq<byte>, e: Entry, pos: nat)
      requires Valid()
      requires var chain := Abs().chains[BinOf(cfg, key)];
               && pos <= |chain| && (found <==> pos < |chain|)
               && (cfg.macOpt ==> Sized(Abs().bufs[BinOf(cfg, key)], chain) && (!found ==> pos < SLOTS))
      modifies table, bufs
      ensures Valid() && Abs() == SetAt(cfg, old(Abs()), BinOf(cfg, key), e, pos)
    {
      var bin := KeyHash.HtHash(key, cfg.size);
      if found {
        table[bin] := table[bin][pos := Overwrite(table[bin][pos], e)];
        if cfg.macOpt {
          var p := bufs[bin].size - pos - 1;
          bufs[bin] := bufs[bin].(slots := bufs[bin].slots[p := e.mac]);
        }
      } else {
        table[bin] := [e] + table[bin];
        if cfg.macOpt {
          bufs[bin] := MacBuf(bufs[bin].size + 1, bufs[bin].slots[pos := e.mac]);
        }
      }
    }

    /** ht_append_o. */
    method HtAppend(key: seq<byte>, e: Entry, pos: nat)
      requires Valid()
      requires pos < |Abs().chains[BinOf(cfg, key)]|
      requires cfg.macOpt ==> Sized(Abs().bufs[BinOf(cfg, key)], Abs().chains[BinOf(cfg, key)])
      modifies table, bufs
      ensures Valid() && Abs() == AppendAt(cfg, old(Abs()), BinOf(cfg, key), e, pos)
    {
      var bin := KeyHash.HtHash(key, cfg.size);
      table[bin] := table[bin][pos := Overwrite(table[bin][pos], e)];
      if cfg.macOpt {
        bufs[bin] := bufs[bin].(slots := bufs[bin].slots[pos := e.mac]);
      }
    }

    /** The counting loops: MACs of the whole group, of the buckets before bin, and of bin. */
    method CountGroup(bin: nat) returns (total: nat, before: nat, cur: nat)
      requires Valid() && bin < cfg.size && BuffersFit()
      ensures total == |GroupAgg(cfg, Abs(), GroupOf(cfg, bin))|
      ensures before == |Agg(cfg, Abs(), Lo(cfg, GroupOf(cfg, bin)), bin)|
      ensures cur == |BucketMacs(cfg, Abs(), bin)|
    {
      var g := GroupOf(cfg, bin);
      var start := bin / Ratio(cfg) * Ratio(cfg);
      total, before, cur := 0, 0, 0;
      var index := start;
      while index < start + Ratio(cfg)
        invariant Lo(cfg, g) <= index <= Hi(cfg, g)
        invariant total == |Agg(cfg, Abs(), Lo(cfg, g), index)|
        invariant bin < index ==> before == |Agg(cfg, Abs(), Lo(cfg, g), bin)| && cur == |BucketMacs(cfg, Abs(), bin)|
      {
        var here := 0;
        if cfg.macOpt {
          here := bufs[index].size;
        } else {
          while here < |table[index]|
            invariant 0 <= here <= |table[index]|
          {
            here := here + 1;
          }
        }
        if index == bin {
          before, cur := total, here;
        }
        total := total + here;
        index := index + 1;
      }
    }

    /** Every buffer counts at most the slots it has. */
    ghost predicate BuffersFit()
      reads table, bufs, roots
    {
      Fits(cfg, Abs())
    }

    /** The filling loops: the aggregate of the group of bin, bucket after bucket. */
    method FillGroup(bin: nat, total: nat) returns (agg: array<Mac>)
      requires Valid() && bin < cfg.size && BuffersFit()
      requires total == |GroupAgg(cfg, Abs(), GroupOf(cfg, bin))|
      ensures fresh(agg) && agg[..] == GroupAgg(cfg, Abs(), GroupOf(cfg, bin))
    {
      hide Agg;
      var g := GroupOf(cfg, bin);
      AggGrows(cfg, Abs(), Lo(cfg, g), Lo(cfg, g), Hi(cfg, g));
      var start := bin / Ratio(cfg) * Ratio(cfg);
      var zero: Mac := seq(16, i => 0);
      agg := new Mac[total](i => zero);
      ghost var s := Abs();
      var i := 0;
      var index := start;
      while index < start + Ratio(cfg)
        invariant Lo(cfg, g) <= index <= Hi(cfg, g)
        invariant Abs() == s && fresh(agg) && agg.Length == total
        invariant i == |Agg(cfg, s, Lo(cfg, g), index)| <= total
        invariant agg[..i] == Agg(cfg, s, Lo(cfg, g), index)
      {
        AggGrows(cfg, s, Lo(cfg, g), index, Hi(cfg, g));
        var macs := if cfg.macOpt then bufs[index].slots[..bufs[index].size] else ChainMacs(table[index]);
        CopyMacs(agg, i, macs);
        assert agg[..i + |macs|] == Agg(cfg, s, Lo(cfg, g), index) + macs;
        i := i + |macs|;
        index := index + 1;
      }
      assert agg[..] == agg[..i];
    }

    /** get_chain_mac followed by the comparison of enclave_verify_tree_root. */
    method VerifyTreeRoot(bin: nat) returns (ok: bool)
      requires Valid() && bin < cfg.size && BuffersFit()
      ensures ok <==> RootVerifies(cfg, Abs(), bin)
    {
      ghost var s := Abs();
      var total, before, cur := CountGroup(bin);
      var agg := FillGroup(bin, total);
      assert Abs() == s;
      ok := cfg.cipher.cmac(Flat(agg[..])) == roots[bin / Ratio(cfg)];
    }

    /** enclave_rebuild_tree_root. */
    method RebuildTreeRoot(bin: nat, pos: nat, isInsert: bool, prev: Mac) returns (ok: bool)
      requires Valid() && bin < cfg.size && BuffersFit()
      requires 0 <= RebuildIndex(cfg, Abs(), bin, pos, isInsert) < |GroupAgg(cfg, Abs(), GroupOf(cfg, bin))|
      modifies roots
      ensures Valid() && Rebuilt(ok, Abs()) == Rebuild(cfg, old(Abs()), bin, pos, isInsert, prev)
    {
      hide Agg, BucketMacs, Flat, PreviousAgg;
      ghost var s := Abs();
      var total, ahead, cur := CountGroup(bin);
      var idx := if cfg.macOpt then (if isInsert then ahead + pos else ahead + (cur - pos - 1))
                 else (if isInsert then ahead + (cur - pos - 1) else ahead + pos);
      var agg := FillGroup(bin, total);
      var g := GroupOf(cfg, bin);
      assert Abs() == s;
      ok := PreviousVerifies(g, agg[..], idx, isInsert, prev);
      if ok {
        roots[g] := cfg.cipher.cmac(Flat(agg[..]));
      }
    }

    /** The check of the reconstructed aggregate against the root; a first insert is not checked. */
    method PreviousVerifies(g: nat, agg: seq<Mac>, idx: nat, isInsert: bool, prev: Mac) returns (ok: bool)
      requires g < roots.Length && idx < |agg|
      ensures ok <==> ((isInsert && |agg| <= 1) ||
                       cfg.cipher.cmac(Flat(PreviousAgg(agg, idx, isInsert, prev))) == roots[g])
    {
      ok := true;
      if !isInsert || |agg| > 1 {
        var before := PreviousMacs(agg, idx, isInsert, prev);
        ok := cfg.cipher.cmac(Flat(before[..])) == roots[g];
      }
    }

    /** The table part of enclave_set: search, seal, write, rebuild. */
    method SetKey(key: seq<byte>, val: seq<byte>, rand: Nac, junk: Mac) returns (ok: bool)
      requires Valid() && SetReady(cfg, Abs(), key, val, rand)
      modifies table, bufs, roots
      ensures Valid()
      ensures var (s, b) := (old(Abs()), BinOf(cfg, key));
              var pos := SearchPos(cfg, s, key);
              Rebuilt(ok, Abs()) == Rebuild(cfg, SetTable(cfg, s, key, val, rand), b, pos, pos == |s.chains[b]|,
                                            PrevMac(s, b, pos, junk))
    {
      var found, pos, plain, updatedNac := HtGet(key);
      var bin := KeyHash.HtHash(key, cfg.size);
      var nac := if found then updatedNac else rand;
      var prev := if found then table[bin][pos].mac else junk;
      var e := Encrypt(key, val, nac);
      HtSet(found, key, e, pos);
      ok := RebuildTreeRoot(bin, pos, !found, prev);
    }

    /** enclave_set: the reply is the key, and ok tells whether the root check passed. */
    method EnclaveSet(buf: seq<byte>, rand: Nac, junk: Mac, ghost m: KeyMap) returns (reply: seq<byte>, ok: bool)
      requires Valid() && WellFormed(buf, cfg.maxBuf) && OpOf(buf) == Set
      requires TableInv(cfg, Abs(), m) && Room(cfg, Abs(), KeyOf(buf))
      modifies table, bufs, roots
      ensures Valid() && TableInv(cfg, Abs(), Workers.SpecApply(Parse(buf), m))
      ensures reply == Workers.SpecReply(cfg.maxBuf, Parse(buf), m)
      ensures old(TableIntact(cfg, Abs())) ==> ok && TableIntact(cfg, Abs())
      ensures ok <==> old(SetPasses(cfg, Abs(), KeyOf(buf)))
      ensures var g := GroupOf(cfg, BinOf(cfg, KeyOf(buf)));
              && Abs().roots == old(Abs().roots)[g := Abs().roots[g]]
              && (if ok then RootOk(cfg, Abs(), g) else Abs().roots == old(Abs().roots))
    {
      hide TableInv, TableIntact, SetPasses, RootOk, Rebuild, RebuildIndex, GroupAgg;
      var key, val := KeyOf(buf), ValOf(buf);
      KeyFits(buf, cfg.maxBuf);
      SetEverywhere(cfg, Abs(), m, key, val, rand, junk);
      SetIsReady(cfg, Abs(), m, key, val, rand);
      ok := SetKey(key, val, rand, junk);
      reply := Padded(key + [NUL], cfg.maxBuf);
    }

    /** Search, decrypt and check the root. */
    method GetValue(key: seq<byte>, ghost m: KeyMap) returns (found: bool, val: seq<byte>, ok: bool)
      requires Valid() && NulFree(key) && TableInv(cfg, Abs(), m)
      ensures found <==> key in m
      ensures found ==> val == m[key] + [NUL]
      ensures ok <==> (found ==> RootVerifies(cfg, Abs(), BinOf(cfg, key)))
      ensures TableIntact(cfg, Abs()) ==> ok
    {
      hide TableInv, GroupIntact, RootVerifies, BucketOk, Workers.SearchIn;
      SearchIsFind(cfg, Abs(), m, key);
      FitsNow(cfg, Abs(), m);
      var pos, plain, updatedNac;
      found, pos, plain, updatedNac := HtGet(key);
      if !found {
        return false, [], true;
      }
      var bin := KeyHash.HtHash(key, cfg.size);
      ok := VerifyTreeRoot(bin);
      val := plain[|key| + 1..];
      assert val == m[key] + [NUL];
    }

    /** enclave_get: the value, or on a miss the request as the tokenizer left it. */
    method EnclaveGet(buf: seq<byte>, ghost m: KeyMap) returns (reply: seq<byte>, ok: bool)
      requires Valid() && WellFormed(buf, cfg.maxBuf) && OpOf(buf) == Get && TableInv(cfg, Abs(), m)
      requires KeyOf(buf) in m ==> |m[KeyOf(buf)]| < cfg.maxBuf
      ensures reply == Workers.SpecReply(cfg.maxBuf, Parse(buf), m)
      ensures ok <==> (KeyOf(buf) in m ==> RootVerifies(cfg, Abs(), BinOf(cfg, KeyOf(buf))))
      ensures TableIntact(cfg, Abs()) ==> ok
    {
      KeyFits(buf, cfg.maxBuf);
      var found, val;
      found, val, ok := GetValue(KeyOf(buf), m);
      reply := if found then Padded(val, cfg.maxBuf) else Echo(buf);
    }

    /** The table part of enclave_append on a hit: join the values, seal, write, rebuild. */
    method AppendKey(key: seq<byte>, val: seq<byte>, pos: nat, plain: seq<byte>, nac: Nac) returns (ok: bool)
      requires Valid() && AppendReady(cfg, Abs(), key, val) && pos == SearchPos(cfg, Abs(), key)
      requires var e := Abs().chains[BinOf(cfg, key)][pos];
               && plain == cfg.cipher.decrypt(e.keyVal, e.nac) && e.keySize < |plain|
               && nac == NextNac(cfg.cipher, e)
      modifies table, bufs, roots
      ensures Valid()
      ensures var (s, b) := (old(Abs()), BinOf(cfg, key));
              Rebuilt(ok, Abs()) == Rebuild(cfg, AppendTable(cfg, s, key, val), b, pos, false, s.chains[b][pos].mac)
    {
      var bin := KeyHash.HtHash(key, cfg.size);
      var prior := table[bin][pos];
      var e := Encrypt(key, plain[prior.keySize..|plain| - 1] + val, nac);
      assert e == AppendEntry(cfg, prior, key, val);
      HtAppend(key, e, pos);
      ok := RebuildTreeRoot(bin, pos, false, prior.mac);
    }

    /** APPEND of a value to a key: a miss changes nothing. */
    method AppendValue(key: seq<byte>, val: seq<byte>, ghost m: KeyMap) returns (found: bool, ok: bool)
      requires Valid() && NulFree(key) && TableInv(cfg, Abs(), m)
      modifies table, bufs, roots
      ensures Valid() && (found <==> key in m)
      ensures !found ==> ok && Abs() == old(Abs())
      ensures found ==> TableInv(cfg, Abs(), m[key := m[key] + val])
      ensures found && old(TableIntact(cfg, Abs())) && old(AppendAligned(cfg, Abs(), key)) ==>
                ok && TableIntact(cfg, Abs())
      ensures ok <==> old(AppendPasses(cfg, Abs(), key, val))
      ensures found && ok ==> RootOk(cfg, Abs(), GroupOf(cfg, BinOf(cfg, key)))
      ensures var g := GroupOf(cfg, BinOf(cfg, key));
              Abs().roots == (if ok then old(Abs().roots)[g := Abs().roots[g]] else old(Abs().roots))
    {
      SearchHits(cfg, Abs(), m, key);
      var pos, plain, updatedNac;
      found, pos, plain, updatedNac := HtGet(key);
      if !found {
        return false, true;
      }
      ghost var s := Abs();
      AppendIsReady(cfg, s, m, key, val);
      ok := AppendKey(key, val, pos, plain, updatedNac);
      AppendEverywhere(cfg, s, m, key, val);
    }

    /** enclave_append: the key, or on a miss the request as the tokenizer left it. */
    method EnclaveAppend(buf: seq<byte>, ghost m: KeyMap) returns (reply: seq<byte>, ok: bool)
      requires Valid() && WellFormed(buf, cfg.maxBuf) && OpOf(buf) == Append && TableInv(cfg, Abs(), m)
      modifies table, bufs, roots
      ensures Valid() && TableInv(cfg, Abs(), Workers.SpecApply(Parse(buf), m))
      ensures reply == Workers.SpecReply(cfg.maxBuf, Parse(buf), m)
      ensures old(TableIntact(cfg, Abs())) && (KeyOf(buf) in m ==> old(AppendAligned(cfg, Abs(), KeyOf(buf)))) ==>
                ok && TableIntact(cfg, Abs())
      ensures ok <==> old(AppendPasses(cfg, Abs(), KeyOf(buf), ValOf(buf)))
      ensures KeyOf(buf) !in m ==> Abs() == old(Abs())
      ensures var g := GroupOf(cfg, BinOf(cfg, KeyOf(buf)));
              && (KeyOf(buf) in m && ok ==> RootOk(cfg, Abs(), g))
              && Abs().roots == (if ok then old(Abs().roots)[g := Abs().roots[g]] else old(Abs().roots))
    {
      KeyFits(buf, cfg.maxBuf);
      var found;
      found, ok := AppendValue(KeyOf(buf), ValOf(buf), m);
      reply := if found then Padded(KeyOf(buf) + [NUL], cfg.maxBuf) else Echo(buf);
    }
  }

  /** The reconstruction of the previous aggregate. */
  method PreviousMacs(agg: seq<Mac>, idx: nat, isInsert: bool, prev: Mac) returns (before: array<Mac>)
    requires idx < |agg|
    ensures fresh(before) && before[..] == PreviousAgg(agg, idx, isInsert, prev)
  {
    var zero: Mac := seq(16, i => 0);
    if isInsert {
      before := new Mac[|agg| - 1](i => zero);
      CopyMacs(before, 0, agg[..idx]);
      CopyMacs(before, idx, agg[idx + 1..]);
    } else {
      before := new Mac[|agg|](i => zero);
      CopyMacs(before, 0, agg);
      CopyMacs(before, idx, [prev]);
    }
  }

  // ---------------------------------------------------------------- from one group to the table

  /** Every group is well formed and the whole table reads as the map. */
  ghost predicate TableInv(cfg: Config, s: Store, m: KeyMap)
    requires ValidConfig(cfg) && Shape(cfg, s)
  {
    forall g: nat :: IsGroup(cfg, g) ==> BucketsOk(cfg, s, g) && GroupRefines(cfg, s, m, g)
  }

  ghost predicate TableIntact(cfg: Config, s: Store)
    requires ValidConfig(cfg) && Shape(cfg, s)
  {
    forall g: nat :: IsGroup(cfg, g) ==> GroupIntact(cfg, s, g)
  }

  lemma OwnBucket(cfg: Config, s: Store, m: KeyMap, key: seq<byte>)
    requires ValidConfig(cfg) && Shape(cfg, s) && TableInv(cfg, s, m)
    ensures BucketOk(cfg, s, BinOf(cfg, key))
  {
    var b := BinOf(cfg, key);
    assert InGroup(cfg, GroupOf(cfg, b), b);
    assert BucketsOk(cfg, s, GroupOf(cfg, b));
  }

  ghost predicate Fits(cfg: Config, s: Store) {
    cfg.macOpt ==> forall b :: 0 <= b < |s.bufs| ==> s.bufs[b].size <= |s.bufs[b].slots|
  }

  lemma FitsNow(cfg: Config, s: Store, m: KeyMap)
    requires ValidConfig(cfg) && Shape(cfg, s) && TableInv(cfg, s, m)
    ensures Fits(cfg, s)
  {
    forall b | 0 <= b < cfg.size ensures cfg.macOpt ==> s.bufs[b].size <= |s.bufs[b].slots| {
      var g := GroupOf(cfg, b);
      assert BucketsOk(cfg, s, g) && InGroup(cfg, g, b);
      assert BucketOk(cfg, s, b);
    }
  }

  lemma FitsAfter(cfg: Config, s: Store, t: Store, m: KeyMap, b: nat)
    requires ValidConfig(cfg) && b < cfg.size && OnlyBucket(cfg, s, t, b) && TableInv(cfg, s, m)
    requires cfg.macOpt ==> Sized(t.bufs[b], t.chains[b])
    ensures Fits(cfg, t)
  {
    FitsNow(cfg, s, m);
  }

  /** What the table part of a SET needs: agreeing searches, a free slot, and an index in range. */
  ghost predicate SetReady(cfg: Config, s: Store, key: seq<byte>, val: seq<byte>, rand: Nac)
    requires ValidConfig(cfg) && Shape(cfg, s)
  {
    var b, pos, t := BinOf(cfg, key), SearchPos(cfg, s, key), SetTable(cfg, s, key, val, rand);
    && Workers.SearchIn(cfg, s.chains[b], key) == pos
    && Room(cfg, s, key) && (cfg.macOpt ==> Sized(s.bufs[b], s.chains[b]))
    && Fits(cfg, t)
    && 0 <= RebuildIndex(cfg, t, b, pos, pos == |s.chains[b]|) < |GroupAgg(cfg, t, GroupOf(cfg, b))|
  }

  lemma SetIsReady(cfg: Config, s: Store, m: KeyMap, key: seq<byte>, val: seq<byte>, rand: Nac)
    requires ValidConfig(cfg) && Shape(cfg, s) && NulFree(key) && Room(cfg, s, key) && TableInv(cfg, s, m)
    ensures SetReady(cfg, s, key, val, rand)
  {
    var b, t := BinOf(cfg, key), SetTable(cfg, s, key, val, rand);
    SearchIsFind(cfg, s, m, key);
    SetCorrect(cfg, s, m, key, val, rand, seq(16, i => 0));
    assert OnlyBucket(cfg, s, t, b);
    FitsAfter(cfg, s, t, m, b);
  }

  /** The root of the key's group is right, once the mirror slot of an entry to be overwritten is made true. */
  ghost predicate SetPasses(cfg: Config, s: Store, key: seq<byte>)
    requires ValidConfig(cfg) && Shape(cfg, s)
  {
    var b := BinOf(cfg, key);
    RootOk(cfg, Repaired(cfg, s, b, SearchPos(cfg, s, key)), GroupOf(cfg, b))
  }

  /** A miss is not checked; a hit is checked against what the rebuild takes to have been there before. */
  ghost predicate AppendPasses(cfg: Config, s: Store, key: seq<byte>, val: seq<byte>)
    requires ValidConfig(cfg) && Shape(cfg, s)
  {
    var b, pos := BinOf(cfg, key), SearchPos(cfg, s, key);
    pos < |s.chains[b]| ==>
      RootOk(cfg, AppendUndone(cfg, s, b, AppendEntry(cfg, s.chains[b][pos], key, val), pos), GroupOf(cfg, b))
  }

  /** The slot an APPEND writes is its own mirror, or there is no MAC buffer. */
  ghost predicate AppendAligned(cfg: Config, s: Store, key: seq<byte>)
    requires ValidConfig(cfg) && Shape(cfg, s)
  {
    cfg.macOpt ==> 2 * SearchPos(cfg, s, key) + 1 == |s.chains[BinOf(cfg, key)]|
  }

  ghost predicate AppendReady(cfg: Config, s: Store, key: seq<byte>, val: seq<byte>)
    requires ValidConfig(cfg) && Shape(cfg, s)
  {
    var b, pos := BinOf(cfg, key), SearchPos(cfg, s, key);
    && pos < |s.chains[b]| && (cfg.macOpt ==> Sized(s.bufs[b], s.chains[b]))
    && var t := AppendTable(cfg, s, key, val);
    && Fits(cfg, t)
    && 0 <= RebuildIndex(cfg, t, b, pos, false) < |GroupAgg(cfg, t, GroupOf(cfg, b))|
  }

  lemma AppendIsReady(cfg: Config, s: Store, m: KeyMap, key: seq<byte>, val: seq<byte>)
    requires ValidConfig(cfg) && Shape(cfg, s) && NulFree(key) && key in m && TableInv(cfg, s, m)
    ensures AppendReady(cfg, s, key, val)
  {
    SearchIsFind(cfg, s, m, key);
    AppendCorrect(cfg, s, m, key, val);
    FitsAfter(cfg, s, AppendTable(cfg, s, key, val), m, BinOf(cfg, key));
  }

  lemma SearchHits(cfg: Config, s: Store, m: KeyMap, key: seq<byte>)
    requires ValidConfig(cfg) && Shape(cfg, s) && NulFree(key) && TableInv(cfg, s, m)
    ensures var b, pos := BinOf(cfg, key), SearchPos(cfg, s, key);
            && Workers.SearchIn(cfg, s.chains[b], key) == pos
            && (pos < |s.chains[b]| <==> key in m)
            && (key in m ==> s.chains[b][pos].keySize < |cfg.cipher.decrypt(s.chains[b][pos].keyVal, s.chains[b][pos].nac)|)
  {
    SearchIsFind(cfg, s, m, key);
  }

  /** Either search finds exactly the keys of the map, at an entry that holds the value. */
  lemma SearchIsFind(cfg: Config, s: Store, m: KeyMap, key: seq<byte>)
    requires ValidConfig(cfg) && Shape(cfg, s) && NulFree(key) && TableInv(cfg, s, m)
    ensures var b, pos := BinOf(cfg, key), SearchPos(cfg, s, key);
            && BucketOk(cfg, s, b)
            && Workers.SearchIn(cfg, s.chains[b], key) == pos
            && (pos < |s.chains[b]| <==> key in m)
            && (key in m ==>
                  var e := s.chains[b][pos];
                  && e.keySize == |key| + 1
                  && cfg.cipher.decrypt(e.keyVal, e.nac) == key + [NUL] + m[key] + [NUL]
                  && (GroupIntact(cfg, s, GroupOf(cfg, b)) ==> RootVerifies(cfg, s, b)))
  {
    OwnBucket(cfg, s, m, key);
    HintSearchAgrees(cfg.cipher, s.chains[BinOf(cfg, key)], key);
    GetCorrect(cfg, s, m, key);
  }

  /** What one operation does to its group and to no other holds of the whole table. */
  lemma Everywhere(cfg: Config, s: Store, r: Store, m: KeyMap, key: seq<byte>, v: seq<byte>)
    requires ValidConfig(cfg) && Shape(cfg, s) && Shape(cfg, r) && TableInv(cfg, s, m)
    requires var (b, g) := (BinOf(cfg, key), GroupOf(cfg, BinOf(cfg, key)));
             && BucketsOk(cfg, r, g) && GroupRefines(cfg, r, m[key := v], g)
             && (forall i :: 0 <= i < cfg.size && i != b ==> s.chains[i] == r.chains[i] && s.bufs[i] == r.bufs[i])
             && s.roots[g := r.roots[g]] == r.roots
    ensures TableInv(cfg, r, m[key := v])
    ensures TableIntact(cfg, s) && GroupIntact(cfg, r, GroupOf(cfg, BinOf(cfg, key))) ==> TableIntact(cfg, r)
  {
    forall h: nat | IsGroup(cfg, h) && h != GroupOf(cfg, BinOf(cfg, key))
      ensures BucketsOk(cfg, r, h) && GroupRefines(cfg, r, m[key := v], h)
      ensures GroupIntact(cfg, s, h) ==> GroupIntact(cfg, r, h)
    {
      OtherGroupsSame(cfg, s, r, BinOf(cfg, key), h);
      Elsewhere(cfg, s, r, m, key, v, h);
    }
  }

  lemma Elsewhere(cfg: Config, s: Store, r: Store, m: KeyMap, key: seq<byte>, v: seq<byte>, h: nat)
    requires ValidConfig(cfg) && Shape(cfg, s) && Shape(cfg, r) && IsGroup(cfg, h)
    requires h != GroupOf(cfg, BinOf(cfg, key)) && SameGroup(cfg, s, r, h)
    requires BucketsOk(cfg, s, h) && GroupRefines(cfg, s, m, h)
    ensures BucketsOk(cfg, r, h) && GroupRefines(cfg, r, m[key := v], h)
    ensures GroupIntact(cfg, s, h) ==> GroupIntact(cfg, r, h)
  {
    SameGroupKeeps(cfg, s, r, m, h);
    WorkersProofs.ApplyOutside(cfg, Request(Set, key, v, []), m, m[key := v], h);
    WorkersProofs.RefinesSame(cfg, r, m, m[key := v], h);
  }

  lemma SetEverywhere(cfg: Config, s: Store, m: KeyMap, key: seq<byte>, val: seq<byte>, rand: Nac, junk: Mac)
    requires ValidConfig(cfg) && Shape(cfg, s) && NulFree(key) && Room(cfg, s, key) && TableInv(cfg, s, m)
    ensures var b, pos := BinOf(cfg, key), SearchPos(cfg, s, key);
            var t, isInsert := SetTable(cfg, s, key, val, rand), pos == |s.chains[b]|;
            && 0 <= RebuildIndex(cfg, t, b, pos, isInsert) < |GroupAgg(cfg, t, GroupOf(cfg, b))|
            && var r := Rebuild(cfg, t, b, pos, isInsert, PrevMac(s, b, pos, junk));
            && TableInv(cfg, r.store, m[key := val])
            && (TableIntact(cfg, s) ==> r.ok && TableIntact(cfg, r.store))
            && (r.ok <==> SetPasses(cfg, s, key))
            && RootAfter(cfg, s, r, GroupOf(cfg, b))
  {
    var b, pos := BinOf(cfg, key), SearchPos(cfg, s, key);
    var t, isInsert := SetTable(cfg, s, key, val, rand), pos == |s.chains[b]|;
    SetCorrect(cfg, s, m, key, val, rand, junk);
    RebuildFrame(cfg, t, b, pos, isInsert, PrevMac(s, b, pos, junk));
    var r := Rebuild(cfg, t, b, pos, isInsert, PrevMac(s, b, pos, junk));
    Everywhere(cfg, s, r.store, m, key, val);
    OwnBucket(cfg, s, m, key);
    SetCheckIff(cfg, s, b, Seal(cfg.cipher, key, val, SetNac(cfg, s, b, pos, rand)), pos, PrevMac(s, b, pos, junk));
  }

  /** No other root has changed; the root is right after an accepted rebuild, and as it was after a refused one. */
  ghost predicate RootAfter(cfg: Config, s: Store, r: Rebuilt, g: nat)
    requires Shape(cfg, s) && Shape(cfg, r.store) && IsGroup(cfg, g)
  {
    && (r.ok ==> RootOk(cfg, r.store, g))
    && r.store.roots == (if r.ok then s.roots[g := r.store.roots[g]] else s.roots)
  }

  lemma AppendEverywhere(cfg: Config, s: Store, m: KeyMap, key: seq<byte>, val: seq<byte>)
    requires ValidConfig(cfg) && Shape(cfg, s) && NulFree(key) && key in m && TableInv(cfg, s, m)
    ensures var b, pos := BinOf(cfg, key), SearchPos(cfg, s, key);
            && pos < |s.chains[b]|
            && var t := AppendTable(cfg, s, key, val);
            && 0 <= RebuildIndex(cfg, t, b, pos, false) < |GroupAgg(cfg, t, GroupOf(cfg, b))|
            && var r := Rebuild(cfg, t, b, pos, false, s.chains[b][pos].mac);
            && TableInv(cfg, r.store, m[key := m[key] + val])
            && (TableIntact(cfg, s) && (cfg.macOpt ==> 2 * pos + 1 == |s.chains[b]|) ==>
                  r.ok && TableIntact(cfg, r.store))
            && (r.ok <==> AppendPasses(cfg, s, key, val))
            && RootAfter(cfg, s, r, GroupOf(cfg, b))
  {
    var b, pos := BinOf(cfg, key), SearchPos(cfg, s, key);
    AppendCorrect(cfg, s, m, key, val);
    var t := AppendTable(cfg, s, key, val);
    RebuildFrame(cfg, t, b, pos, false, s.chains[b][pos].mac);
    var r := Rebuild(cfg, t, b, pos, false, s.chains[b][pos].mac);
    Everywhere(cfg, s, r.store, m, key, m[key] + val);
    OwnBucket(cfg, s, m, key);
    AppendDecides(cfg, s, b, AppendEntry(cfg, s.chains[b][pos], key, val), pos);
  }

  /** The aggregate of a prefix of the group is a prefix of the aggregate of the group. */
  lemma AggGrows(cfg: Config, s: Store, lo: nat, b: nat, hi: nat)
    requires lo <= b < hi <= |s.chains| && hi <= |s.bufs|
    ensures |Agg(cfg, s, lo, b)| + |BucketMacs(cfg, s, b)| <= |Agg(cfg, s, lo, hi)|
    ensures Agg(cfg, s, lo, b + 1) == Agg(cfg, s, lo, b) + BucketMacs(cfg, s, b) && Agg(cfg, s, lo, lo) == []
  {
    AggSplit(cfg, s, lo, b, hi);
  }
}
