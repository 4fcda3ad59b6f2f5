/**
 * HMAC and the TLS pseudo-random function over an arbitrary hash
 * (hmac.c, crypto.c and calculate_key_block in dtls.c).
 */
module Prf {
  import opened Bytes
  import Record

  const HMAC_BLOCKSIZE := 64
  const DIGEST_SIZE := 32
  const MASTER_SECRET_LENGTH := 48

  type Digest = d: bytes | |d| == DIGEST_SIZE witness seq(DIGEST_SIZE, _ => 0)

  type Hash = bytes -> Digest

  // ----- section 2 of RFC 2104 -----

  function PaddedKey(H: Hash, key: bytes): (k: bytes)
    ensures |k| == HMAC_BLOCKSIZE
  {
    var k := if |key| > HMAC_BLOCKSIZE then H(key) else key;
    k + Zeros(HMAC_BLOCKSIZE - |k|)
  }

  function XorAll(k: bytes, b: byte): (r: bytes)
    ensures |r| == |k|
  {
    seq(|k|, i requires 0 <= i < |k| => Xor(k[i], b))
  }

  function Hmac(H: Hash, key: bytes, text: bytes): Digest
  {
    H(XorAll(PaddedKey(H, key), 0x5C) + H(XorAll(PaddedKey(H, key), 0x36) + text))
  }

  lemma PadByte(b: byte)
    ensures Xor(Xor(b, 0x36), 0x6A) == Xor(b, 0x5C)
  {
    hide XorNat;
    XorNatAssociates(b, 0x36, 0x6A);
    PadConstant();
  }

  lemma PadConstant()
    ensures XorNat(0x36, 0x6A) == 0x5C
  {
    assert XorNat(1, 3) == 2;
    assert XorNat(3, 6) == 5;
    assert XorNat(6, 13) == 11;
    assert XorNat(13, 26) == 23;
    assert XorNat(27, 53) == 46;
  }

  /** Rewriting the inner pad with 0x6A gives the outer pad. */
  lemma PadRewrite(k: bytes)
    ensures XorAll(XorAll(k, 0x36), 0x6A) == XorAll(k, 0x5C)
  {
    hide Xor;
    var a, b := XorAll(XorAll(k, 0x36), 0x6A), XorAll(k, 0x5C);
    forall i | 0 <= i < |k| ensures a[i] == b[i] {
      PadByte(k[i]);
    }
  }

  /** dtls_hmac_context_t; the running hash state is the string fed to it so far. */
  class HmacContext {
    const pad: array<byte>
    var data: bytes

    /** An inner hash of text is under way, keyed with key. */
    ghost predicate Running(H: Hash, key: bytes, text: bytes)
      reads this, pad
    {
      && pad.Length == HMAC_BLOCKSIZE
      && pad[..] == XorAll(PaddedKey(H, key), 0x5C)
      && data == XorAll(PaddedKey(H, key), 0x36) + text
    }

    constructor New(H: Hash, key: bytes)
      ensures Running(H, key, []) && fresh(pad) && pad.Length == HMAC_BLOCKSIZE
    {
      pad := new byte[HMAC_BLOCKSIZE];
      data := [];
      new;
      Init(H, key);
    }

    /** dtls_hmac_init */
    method Init(H: Hash, key: bytes)
      requires pad.Length == HMAC_BLOCKSIZE
      modifies this, pad
      ensures Running(H, key, [])
    {
      Clear(pad);
      data := [];
      if |key| > HMAC_BLOCKSIZE {
        Copy(pad, 0, H(key));
      } else {
        Copy(pad, 0, key);
      }
      ghost var k := PaddedKey(H, key);
      assert pad[..] == k;
      XorPad(0x36);
      assert pad[..] == XorAll(k, 0x36);
      data := [];
      Update(pad[..]);
      XorPad(0x6A);
      PadRewrite(k);
      assert XorAll(k, 0x36) + [] == XorAll(k, 0x36) == data;
    }

    method XorPad(b: byte)
      modifies pad
      ensures pad[..] == XorAll(old(pad[..]), b)
    {
      for i := 0 to pad.Length
        invariant forall j :: 0 <= j < i ==> pad[j] == Xor(old(pad[j]), b)
        invariant forall j :: i <= j < pad.Length ==> pad[j] == old(pad[j])
      {
        pad[i] := Xor(pad[i], b);
      }
    }

    /** dtls_hmac_update */
    method Update(input: bytes)
      modifies this
      ensures data == old(data) + input
      ensures forall H: Hash, key, text :: old(Running(H, key, text)) ==> Running(H, key, text + input)
    {
      data := data + input;
      forall H: Hash, key, text | old(Running(H, key, text)) ensures Running(H, key, text + input) {
        assert XorAll(PaddedKey(H, key), 0x36) + text + input == XorAll(PaddedKey(H, key), 0x36) + (text + input);
      }
    }

    /** dtls_hmac_finalize: whatever the text was split into, the digest is that of RFC 2104. */
    method Finalize(H: Hash, ghost key: bytes, ghost text: bytes) returns (result: Digest)
      requires Running(H, key, text)
      modifies this
      ensures result == Hmac(H, key, text)
    {
      var buf := H(data);
      data := [];
      Update(pad[..]);
      Update(buf);
      assert data == pad[..] + buf;
      result := H(data);
    }
  }

  // ----- section 5 of RFC 5246 -----

  function A(H: Hash, key: bytes, seed: bytes, i: nat): bytes
  {
    if i == 0 then seed else Hmac(H, key, A(H, key, seed, i - 1))
  }

  /** The first n blocks of P_hash. */
  function PBlocks(H: Hash, key: bytes, seed: bytes, n: nat): (r: bytes)
    ensures |r| == n * DIGEST_SIZE
  {
    if n == 0 then [] else PBlocks(H, key, seed, n - 1) + Hmac(H, key, A(H, key, seed, n) + seed)
  }

  /** The first len bytes of P_hash. */
  function PHash(H: Hash, key: bytes, seed: bytes, len: nat): (r: bytes)
    ensures |r| == len
  {
    PBlocks(H, key, seed, len / DIGEST_SIZE + 1)[..len]
  }

  lemma {:induction false} PBlocksPrefix(H: Hash, key: bytes, seed: bytes, m: nat, n: nat)
    requires m <= n
    ensures PBlocks(H, key, seed, m) <= PBlocks(H, key, seed, n)
    decreases n - m
  {
    if m < n {
      PBlocksPrefix(H, key, seed, m, n - 1);
    }
  }

  /** A shorter output is a prefix of a longer one. */
  lemma PHashPrefix(H: Hash, key: bytes, seed: bytes, m: nat, n: nat)
    requires m <= n
    ensures PHash(H, key, seed, m) == PHash(H, key, seed, n)[..m]
  {
    PBlocksPrefix(H, key, seed, m / DIGEST_SIZE + 1, n / DIGEST_SIZE + 1);
  }

  /** Any number of blocks that is long enough will do. */
  lemma PHashOf(H: Hash, key: bytes, seed: bytes, len: nat, n: nat)
    requires len <= n * DIGEST_SIZE
    ensures PHash(H, key, seed, len) == PBlocks(H, key, seed, n)[..len]
  {
    var k := len / DIGEST_SIZE + 1;
    if n <= k {
      PBlocksPrefix(H, key, seed, n, k);
    } else {
      PBlocksPrefix(H, key, seed, k, n);
    }
  }

  /** Feeds the seeds one after the other and ends the hash. */
  method FinishSeeds(H: Hash, ctx: HmacContext, ghost key: bytes, ghost text: bytes,
                     lab: bytes, random1: bytes, random2: bytes)
    returns (r: Digest)
    requires ctx.Running(H, key, text)
    modifies ctx
    ensures r == Hmac(H, key, text + (lab + random1 + random2))
  {
    ctx.Update(lab);
    ctx.Update(random1);
    ctx.Update(random2);
    assert text + lab + random1 + random2 == text + (lab + random1 + random2);
    r := ctx.Finalize(H, key, text + (lab + random1 + random2));
  }

  /** HMAC(key, a + seed), reusing the context */
  method HashBlock(H: Hash, ctx: HmacContext, key: bytes, a: bytes, lab: bytes, random1: bytes, random2: bytes)
    returns (r: Digest)
    requires ctx.pad.Length == HMAC_BLOCKSIZE
    modifies ctx, ctx.pad
    ensures r == Hmac(H, key, a + (lab + random1 + random2))
  {
    ctx.Init(H, key);
    ctx.Update(a);
    assert [] + a == a;
    r := FinishSeeds(H, ctx, key, a, lab, random1, random2);
  }

  /** A(i+1) = HMAC(key, A(i)), reusing the context */
  method NextA(H: Hash, ctx: HmacContext, key: bytes, a: bytes) returns (r: Digest)
    requires ctx.pad.Length == HMAC_BLOCKSIZE
    modifies ctx, ctx.pad
    ensures r == Hmac(H, key, a)
  {
    ctx.Init(H, key);
    ctx.Update(a);
    assert [] + a == a;
    r := ctx.Finalize(H, key, a);
  }

  lemma PHashEnd(H: Hash, key: bytes, seed: bytes, i: nat, len: nat, tmp: bytes)
    requires i >= 1 && (i - 1) * DIGEST_SIZE <= len <= i * DIGEST_SIZE
    requires tmp == Hmac(H, key, A(H, key, seed, i) + seed)
    ensures PHash(H, key, seed, len) == PBlocks(H, key, seed, i - 1) + tmp[..len - (i - 1) * DIGEST_SIZE]
  {
    PHashOf(H, key, seed, len, i);
    assert PBlocks(H, key, seed, i) == PBlocks(H, key, seed, i - 1) + tmp;
  }

  /** dtls_p_hash */
  method PHashInto(H: Hash, key: bytes, lab: bytes, random1: bytes, random2: bytes, buf: array<byte>)
    modifies buf
    ensures buf[..] == PHash(H, key, lab + random1 + random2, buf.Length)
  {
    hide Hmac, PHash;
    ghost var seed := lab + random1 + random2;
    var hmac_a := new HmacContext.New(H, key);
    var a := FinishSeeds(H, hmac_a, key, [], lab, random1, random2);
    assert [] + seed == seed;
    var hmac_p := new HmacContext.New(H, key);
    assert hmac_a.pad.Length == hmac_p.pad.Length == HMAC_BLOCKSIZE;
    var len := 0;
    ghost var i := 1;
    while len + DIGEST_SIZE < buf.Length
      invariant i >= 1 && len == (i - 1) * DIGEST_SIZE <= buf.Length
      invariant a == A(H, key, seed, i)
      invariant buf[..len] == PBlocks(H, key, seed, i - 1)
      invariant fresh(hmac_a) && fresh(hmac_a.pad) && fresh(hmac_p) && fresh(hmac_p.pad)
    {
      var tmp := HashBlock(H, hmac_p, key, a, lab, random1, random2);
      ghost var out := buf[..len];
      Copy(buf, len, tmp);
      assert buf[..len + DIGEST_SIZE] == out + tmp;
      assert PBlocks(H, key, seed, i) == out + tmp;
      len := len + DIGEST_SIZE;
      a := NextA(H, hmac_a, key, a);
      i := i + 1;
    }
    var tmp := HashBlock(H, hmac_p, key, a, lab, random1, random2);
    PHashEnd(H, key, seed, i, buf.Length, tmp);
    hide A, PBlocks;
    Copy(buf, len, tmp[..buf.Length - len]);
  }

  // ----- keys -----

  /** dtls_prf */
  function PrfOf(H: Hash, key: bytes, lab: bytes, random1: bytes, random2: bytes, len: nat): (r: bytes)
    ensures |r| == len
  {
    PHash(H, key, lab + random1 + random2, len)
  }

  /** Section 2 of RFC 4279: zeros as long as the key, then the key, each with its length. */
  function PreMaster(psk: bytes): bytes
  {
    PutBE(|psk|, 2) + Zeros(|psk|) + PutBE(|psk|, 2) + psk
  }

  /** dtls_psk_pre_master_secret */
  method PskPreMasterSecret(psk: bytes, result: array<byte>) returns (n: int)
    modifies result
    ensures if result.Length < 2 * (2 + |psk|) then n == -1 && result[..] == old(result[..])
            else n == |PreMaster(psk)| && result[..n] == PreMaster(psk)
  {
    if result.Length < 2 * (2 + |psk|) {
      return -1;
    }
    var p := 0;
    Copy(result, p, PutBE(|psk|, 2));
    p := p + 2;
    Copy(result, p, Zeros(|psk|));
    p := p + |psk|;
    assert result[..p] == PutBE(|psk|, 2) + Zeros(|psk|);
    Copy(result, p, result[..2]);
    p := p + 2;
    Copy(result, p, psk);
    n := 2 * (2 + |psk|);
  }

  /** Different keys have different pre-master secrets. */
  lemma PreMasterInjective(a: bytes, b: bytes)
    requires |a| < 0x1_0000 && |b| < 0x1_0000 && PreMaster(a) == PreMaster(b)
    ensures a == b
  {
    assert |PreMaster(a)| == 4 + 2 * |a| && |PreMaster(b)| == 4 + 2 * |b|;
    assert a == PreMaster(a)[4 + |a|..] && b == PreMaster(b)[4 + |b|..];
  }

  function MasterSecret(H: Hash, psk: bytes, clientRandom: bytes, serverRandom: bytes): (m: bytes)
    ensures |m| == MASTER_SECRET_LENGTH
  {
    PrfOf(H, PreMaster(psk), MasterLabel(), clientRandom, serverRandom, MASTER_SECRET_LENGTH)
  }

  function KeyBlockOf(H: Hash, psk: bytes, clientRandom: bytes, serverRandom: bytes): Record.KeyBlock
  {
    PrfOf(H, MasterSecret(H, psk, clientRandom, serverRandom), KeyLabel(), serverRandom, clientRandom,
          Record.KEYBLOCK_LENGTH)
  }

  function FinishedData(H: Hash, master: bytes, sender: Record.Role, transcript: bytes): (v: bytes)
    ensures |v| == 12
  {
    PrfOf(H, master, SideLabel(sender), FinishedLabel(), H(transcript), 12)
  }

  // "master secret", "key expansion", "client", "server" and " finished" in ASCII
  function MasterLabel(): bytes { [109, 97, 115, 116, 101, 114, 32, 115, 101, 99, 114, 101, 116] }
  function KeyLabel(): bytes { [107, 101, 121, 32, 101, 120, 112, 97, 110, 115, 105, 111, 110] }
  function FinishedLabel(): bytes { [32, 102, 105, 110, 105, 115, 104, 101, 100] }
  function SideLabel(side: Record.Role): bytes
  {
    if side.Client? then [99, 108, 105, 101, 110, 116] else [115, 101, 114, 118, 101, 114]
  }
}
