/** AES-CTR and CMAC as arbitrary functions that satisfy the laws the store relies on. */
module Crypto {
  import opened Bytes

  /**
   * `encrypt` and `decrypt` are the counter-mode cipher for a starting counter block,
   * `advance` is the counter block after processing a number of bytes, and `cmac` is the MAC.
   */
  datatype Cipher = Cipher(
    encrypt: (seq<byte>, Nac) -> seq<byte>,
    decrypt: (seq<byte>, Nac) -> seq<byte>,
    advance: (Nac, nat) -> Nac,
    cmac: seq<byte> -> Mac)

  /** Counter mode keeps lengths, and decryption undoes encryption under the same counter block. */
  ghost predicate Lawful(c: Cipher) {
    forall p, n ::
      && |c.encrypt(p, n)| == |p|
      && c.decrypt(c.encrypt(p, n), n) == p
  }

  /** The byte string authenticated for one entry. */
  function MacInput(keyVal: seq<byte>, nac: Nac, hint: byte, keyLen: nat, valLen: nat): (r: seq<byte>)
    ensures |r| == |keyVal| + 25
  {
    keyVal + nac + [hint] + Le32(keyLen) + Le32(valLen)
  }

  /**
   * The authenticated string determines every field of the entry, so two entries share a MAC
   * input only when they are the same entry.
   */
  lemma MacInputInjective(kv: seq<byte>, n: Nac, h: byte, k: nat, v: nat,
                          kv': seq<byte>, n': Nac, h': byte, k': nat, v': nat)
    requires k < 0x1_0000_0000 && v < 0x1_0000_0000 && k' < 0x1_0000_0000 && v' < 0x1_0000_0000
    requires MacInput(kv, n, h, k, v) == MacInput(kv', n', h', k', v')
    ensures kv == kv' && n == n' && h == h' && k == k' && v == v'
  {
    var m, m' := MacInput(kv, n, h, k, v), MacInput(kv', n', h', k', v');
    var l := |kv|;
    assert |kv'| == l;
    assert kv == m[..l] && kv' == m'[..l];
    assert n == m[l..l + 16] && n' == m'[l..l + 16];
    assert h == m[l + 16] && h' == m'[l + 16];
    assert Le32(k) == m[l + 17..l + 21] && Le32(k') == m'[l + 17..l + 21];
    assert Le32(v) == m[l + 21..] && Le32(v') == m'[l + 21..];
    Le32RoundTrip(k);
    Le32RoundTrip(k');
    Le32RoundTrip(v);
    Le32RoundTrip(v');
  }
}
