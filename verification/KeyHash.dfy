/** The two string hashes of the table: the bucket index and the one-byte key hint. */
module KeyHash {
  import opened Bytes

  const ULONG_MAX: nat := 0xFFFF_FFFF_FFFF_FFFF

  /** A 64-bit unsigned accumulator. */
  type Word = w: int | 0 <= w <= 0xFFFF_FFFF_FFFF_FFFF

  /** A byte read through a signed char. */
  function Signed(b: byte): int {
    if b < 128 then b else b - 256
  }

  /** Multiply the accumulator, then add the sign-extended character, both modulo 2^64. */
  function Round61(h: Word, b: byte): Word {
    ((h as int) * 61 + Signed(b)) % 0x1_0000_0000_0000_0000
  }

  function Round11(h: Word, b: byte): Word {
    ((h as int) * 11 + Signed(b)) % 0x1_0000_0000_0000_0000
  }

  /** The accumulator after the loop: it stops early once it reaches ULONG_MAX. */
  function Fold(round: (Word, byte) -> Word, h: Word, key: seq<byte>): Word
    decreases |key|
  {
    if key == [] || h == ULONG_MAX then h else Fold(round, round(h, key[0]), key[1..])
  }

  /** Bucket of a key in a table of the given size. */
  function Bucket(key: seq<byte>, size: nat): (r: nat)
    requires 0 < size
    ensures r < size
  {
    Fold(Round61, 7, key) % size
  }

  /** One-byte hint of a key. */
  function Hint(key: seq<byte>): byte {
    Fold(Round11, 7, key) % 256
  }

  /** Hashing a concatenation continues from the accumulator of the front part. */
  lemma {:induction false} FoldAppend(round: (Word, byte) -> Word, h: Word, a: seq<byte>, b: seq<byte>)
    ensures Fold(round, h, a + b) == Fold(round, Fold(round, h, a), b)
    decreases |a|
  {
    if a == [] {
      assert a + b == b;
    } else if h != ULONG_MAX {
      assert (a + b)[1..] == a[1..] + b;
      FoldAppend(round, round(h, a[0]), a[1..], b);
    }
  }

  /** A saturated prefix fixes the bucket: every extension of such a key collides with it. */
  lemma SaturatedPrefixCollides(a: seq<byte>, b: seq<byte>, size: nat)
    requires 0 < size
    requires Fold(Round61, 7, a) == ULONG_MAX
    ensures Bucket(a + b, size) == Bucket(a, size)
  {
    FoldAppend(Round61, 7, a, b);
  }

  /** The values of the accumulator along a key, none but the last saturated. */
  predicate Trace(values: seq<Word>, key: seq<byte>) {
    && |values| == |key| + 1
    && forall i :: 0 <= i < |key| ==> values[i] != ULONG_MAX && Round61(values[i], key[i]) == values[i + 1]
  }

  lemma {:induction false} FoldTrace(values: seq<Word>, key: seq<byte>)
    requires Trace(values, key)
    ensures Fold(Round61, values[0], key) == values[|key|]
    decreases |key|
  {
    if key != [] {
      FoldTrace(values[1..], key[1..]);
    }
  }

  /** Eleven printable characters that drive the accumulator to ULONG_MAX, and its values on the way. */
  const SATURATING: seq<byte> := [37, 89, 49, 34, 53, 83, 46, 90, 53, 63, 43]
  const CLIMB: seq<Word> := [7, 464, 28393, 1732022, 105653376, 6444855989,
                            393136215412, 23981309140178, 1462859857550948, 89234451310607881,
                            5443301529947080804, 18446744073709551615]

  lemma Climbs(i: nat)
    requires i < |SATURATING|
    ensures CLIMB[i] != ULONG_MAX && Round61(CLIMB[i], SATURATING[i]) == CLIMB[i + 1]
  {
  }

  /** Saturated prefixes exist: all extensions of this key share one bucket, in a table of any size. */
  lemma SaturatingKeyCollides(b: seq<byte>, size: nat)
    requires 0 < size
    ensures Fold(Round61, 7, SATURATING) == ULONG_MAX
    ensures Bucket(SATURATING + b, size) == ULONG_MAX % size
  {
    hide Fold;
    forall i | 0 <= i < |SATURATING|
      ensures CLIMB[i] != ULONG_MAX && Round61(CLIMB[i], SATURATING[i]) == CLIMB[i + 1]
    {
      Climbs(i);
    }
    FoldTrace(CLIMB, SATURATING);
    SaturatedPrefixCollides(SATURATING, b, size);
  }

  // ---------------------------------------------------------------- the hashes as polynomials

  const RADIX: nat := 0x1_0000_0000_0000_0000

  /** The value of a key as a number with the given base, its characters the digits, after a leading 7. */
  function Poly(base: nat, key: seq<byte>): int {
    if key == [] then 7 else Poly(base, key[..|key| - 1]) * base + ((key[|key| - 1] as int + 128) % 256 - 128)
  }

  /** Some prefix of the key has the largest word for its value. */
  ghost predicate Saturates(base: nat, key: seq<byte>) {
    exists i :: 0 <= i <= |key| && Poly(base, key[..i]) % RADIX == ULONG_MAX
  }

  lemma {:induction false} SaturatesLast(base: nat, key: seq<byte>)
    requires key != []
    ensures Saturates(base, key) <==> Saturates(base, key[..|key| - 1]) || Poly(base, key) % RADIX == ULONG_MAX
  {
    var front := key[..|key| - 1];
    if Saturates(base, front) {
      var i :| 0 <= i <= |front| && Poly(base, front[..i]) % RADIX == ULONG_MAX;
      assert front[..i] == key[..i];
    }
    if Poly(base, key) % RADIX == ULONG_MAX {
      assert key[..|key|] == key;
    }
    if Saturates(base, key) {
      var i :| 0 <= i <= |key| && Poly(base, key[..i]) % RADIX == ULONG_MAX;
      if i < |key| {
        assert front[..i] == key[..i];
      } else {
        assert key[..i] == key;
      }
    }
  }

  lemma ModStep(p: int, base: nat, d: int)
    ensures (p % RADIX * base + d) % RADIX == (p * base + d) % RADIX
  {
    var q, r := p / RADIX, p % RADIX;
    assert p == q * RADIX + r;
    assert p * base == q * base * RADIX + r * base by {
      Rearrange(q, RADIX, r, base);
    }
    Multiple(q * base, r * base + d);
  }

  lemma Rearrange(q: int, w: nat, r: int, base: nat)
    ensures (q * w + r) * base == q * base * w + r * base
  {
  }

  lemma Multiple(k: int, x: int)
    ensures (k * RADIX + x) % RADIX == x % RADIX
  {
  }

  /**
   * What the loops compute, for every key: the value of the key modulo 2^64, unless a prefix reaches
   * the largest word, which stops the loop there.
   */
  lemma {:induction false} FoldIsPoly(round: (Word, byte) -> Word, base: nat, key: seq<byte>)
    requires forall h: Word, b: byte {:trigger round(h, b)} ::
               round(h, b) == (h as int * base + ((b as int + 128) % 256 - 128)) % RADIX
    ensures Fold(round, 7, key) == (if Saturates(base, key) then ULONG_MAX else Poly(base, key) % RADIX)
    decreases |key|
  {
    if key == [] {
      assert !Saturates(base, key) by {
        assert key[..0] == [];
      }
    } else {
      var front, last := key[..|key| - 1], key[|key| - 1];
      assert key == front + [last];
      FoldIsPoly(round, base, front);
      FoldAppend(round, 7, front, [last]);
      SaturatesLast(base, key);
      var h := Fold(round, 7, front);
      if !Saturates(base, front) {
        SaturatedHere(base, front);
        ModStep(Poly(base, front), base, (last as int + 128) % 256 - 128);
        assert [last][1..] == [];
        assert Fold(round, h, [last]) == round(h, last);
      }
    }
  }

  lemma SaturatedHere(base: nat, key: seq<byte>)
    requires !Saturates(base, key)
    ensures Poly(base, key) % RADIX != ULONG_MAX
  {
    assert key[..|key|] == key;
  }

  /** The bucket and the hint of every key. */
  lemma HashesArePolynomials(key: seq<byte>, size: nat)
    requires 0 < size
    ensures Bucket(key, size) == (if Saturates(61, key) then ULONG_MAX else Poly(61, key) % RADIX) % size
    ensures Hint(key) == (if Saturates(11, key) then ULONG_MAX else Poly(11, key) % RADIX) % 256
  {
    hide Round61, Round11, Poly, Saturates, Fold;
    forall h: Word, b: byte
      ensures Round61(h, b) == (h as int * 61 + ((b as int + 128) % 256 - 128)) % RADIX
      ensures Round11(h, b) == (h as int * 11 + ((b as int + 128) % 256 - 128)) % RADIX
    {
      RoundsAre(h, b);
    }
    FoldIsPoly(Round61, 61, key);
    FoldIsPoly(Round11, 11, key);
  }

  lemma RoundsAre(h: Word, b: byte)
    ensures Round61(h, b) == (h as int * 61 + ((b as int + 128) % 256 - 128)) % RADIX
    ensures Round11(h, b) == (h as int * 11 + ((b as int + 128) % 256 - 128)) % RADIX
  {
  }

  /** The loop both hash functions run, each with its own round. */
  method HashLoop(round: (Word, byte) -> Word, key: seq<byte>) returns (hashval: Word)
    ensures hashval == Fold(round, 7, key)
  {
    hashval := 7;
    var i := 0;
    assert key[0..] == key;
    while hashval < ULONG_MAX && i < |key|
      invariant 0 <= i <= |key|
      invariant Fold(round, hashval, key[i..]) == Fold(round, 7, key)
      decreases |key| - i
    {
      assert key[i..][1..] == key[i + 1..];
      hashval := round(hashval, key[i]);
      i := i + 1;
    }
  }

  method HtHash(key: seq<byte>, size: nat) returns (bin: nat)
    requires 0 < size
    ensures bin == Bucket(key, size) && bin < size
  {
    var hashval := HashLoop(Round61, key);
    bin := hashval % size;
  }

  method KeyHashFunc(key: seq<byte>) returns (hint: byte)
    ensures hint == Hint(key)
  {
    var hashval := HashLoop(Round11, key);
    hint := hashval % 256;
  }
}
