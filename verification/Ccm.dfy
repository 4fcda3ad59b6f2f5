/**
 * Counter mode with CBC-MAC over an arbitrary block function (ccm.c).
 *
 * The functions below write out sections 2.2 to 2.4 of RFC 3610; the methods
 * are the in-place block loops, proved to compute them.
 */
module Ccm {
  import opened Bytes

  const BLOCK := 16

  type Block = b: bytes | |b| == 16 witness seq(16, _ => 0)

  type BlockFn = Block -> Block

  predicate Params(M: nat, L: nat, nonce: bytes, aad: bytes, lm: nat)
  {
    && 2 <= M <= BLOCK
    && (L == 2 || L == 3)
    && |nonce| >= 15 - L
    && |aad| < 0x1_0000_0000_0000_0000
    && lm < Pow256(L)
  }

  // ----- RFC 3610, section 2.2: authentication -----

  function Flags(la: nat, M: nat, L: nat): byte
    requires 2 <= M <= BLOCK && 1 <= L <= 8
  {
    (if la > 0 then 64 else 0) + 8 * ((M - 2) / 2) + (L - 1)
  }

  function B0(M: nat, L: nat, nonce: bytes, la: nat, lm: nat): Block
    requires 2 <= M <= BLOCK && 1 <= L <= 8 && |nonce| >= 15 - L
  {
    [Flags(la, M, L)] + nonce[..15 - L] + PutBE(lm, L)
  }

  function Padding(n: nat): (r: bytes)
    ensures |r| < BLOCK && (n + |r|) % BLOCK == 0
  {
    Zeros((BLOCK - n % BLOCK) % BLOCK)
  }

  function Pad(s: bytes): (r: bytes)
    ensures |r| % BLOCK == 0 && s <= r
  {
    s + Padding(|s|)
  }

  function LengthPrefix(la: nat): (r: bytes)
    ensures |r| == 2 || |r| == 6 || |r| == 10
  {
    if la < 0xFF00 then PutBE(la, 2)
    else if la <= 0xFFFF_FFFF then [0xFF, 0xFE] + PutBE(la, 4)
    else [0xFF, 0xFF] + PutBE(la, 8)
  }

  function AuthBlocks(aad: bytes): (r: bytes)
    ensures |r| % BLOCK == 0
  {
    if aad == [] then [] else Pad(LengthPrefix(|aad|) + aad)
  }

  /** X_(i+1) = E(X_i XOR B_i) over the blocks of bs, starting from X. */
  function Cbc(E: BlockFn, X: Block, bs: bytes): Block
    requires |bs| % BLOCK == 0
    decreases |bs|
  {
    if bs == [] then X else Cbc(E, E(XorSeq(X, bs[..BLOCK])), bs[BLOCK..])
  }

  function MacBlock(E: BlockFn, M: nat, L: nat, nonce: bytes, aad: bytes, m: bytes): Block
    requires Params(M, L, nonce, aad, |m|)
  {
    Cbc(E, Cbc(E, E(B0(M, L, nonce, |aad|, |m|)), AuthBlocks(aad)), Pad(m))
  }

  // ----- RFC 3610, section 2.3: encryption -----

  function CtrBlock(L: nat, nonce: bytes, i: nat): Block
    requires 1 <= L <= 8 && |nonce| >= 15 - L
  {
    [L - 1] + nonce[..15 - L] + PutBE(i, L)
  }

  function KeyByte(E: BlockFn, L: nat, nonce: bytes, i: nat): byte
    requires 1 <= L <= 8 && |nonce| >= 15 - L
  {
    E(CtrBlock(L, nonce, i / BLOCK + 1))[i % BLOCK]
  }

  function Crypt(E: BlockFn, L: nat, nonce: bytes, m: bytes): (c: bytes)
    requires 1 <= L <= 8 && |nonce| >= 15 - L
    ensures |c| == |m|
  {
    seq(|m|, i requires 0 <= i < |m| => Xor(m[i], KeyByte(E, L, nonce, i)))
  }

  function Tag(E: BlockFn, M: nat, L: nat, nonce: bytes, aad: bytes, m: bytes): (t: bytes)
    requires Params(M, L, nonce, aad, |m|)
    ensures |t| == M
  {
    XorSeq(MacBlock(E, M, L, nonce, aad, m), E(CtrBlock(L, nonce, 0)))[..M]
  }

  /** RFC 3610, section 2.4: the ciphertext followed by the encrypted tag. */
  function Encrypt(E: BlockFn, M: nat, L: nat, nonce: bytes, aad: bytes, m: bytes): (c: bytes)
    requires Params(M, L, nonce, aad, |m|)
    ensures |c| == |m| + M
  {
    Crypt(E, L, nonce, m) + Tag(E, M, L, nonce, aad, m)
  }

  /** What the decryption loop recovers from c, whether or not the tag is right. */
  function Recovered(E: BlockFn, M: nat, L: nat, nonce: bytes, c: bytes): (m: bytes)
    requires 1 <= L <= 8 && |nonce| >= 15 - L && M <= |c|
    ensures |m| == |c| - M
  {
    Crypt(E, L, nonce, c[..|c| - M])
  }

  /** The received tag without its mask S_0. */
  function Unmasked(E: BlockFn, M: nat, L: nat, nonce: bytes, c: bytes): (t: bytes)
    requires 1 <= L <= 8 && |nonce| >= 15 - L && M <= |c| && M <= BLOCK
    ensures |t| == M
  {
    XorSeq(c[|c| - M..], E(CtrBlock(L, nonce, 0))[..M])
  }

  /** Counter-mode encryption undoes itself. */
  lemma CryptInverts(E: BlockFn, L: nat, nonce: bytes, m: bytes)
    requires 1 <= L <= 8 && |nonce| >= 15 - L
    ensures Crypt(E, L, nonce, Crypt(E, L, nonce, m)) == m
  {
    var c := Crypt(E, L, nonce, m);
    var d := Crypt(E, L, nonce, c);
    forall i | 0 <= i < |m| ensures d[i] == m[i] {
      XorCancels(m[i], KeyByte(E, L, nonce, i));
    }
  }

  lemma {:induction false} CbcAppend(E: BlockFn, X: Block, a: bytes, b: bytes)
    requires |a| % BLOCK == 0 && |b| % BLOCK == 0
    ensures Cbc(E, X, a + b) == Cbc(E, Cbc(E, X, a), b)
    decreases |a|
  {
    if a == [] {
      assert a + b == b;
    } else {
      assert (a + b)[..BLOCK] == a[..BLOCK] && (a + b)[BLOCK..] == a[BLOCK..] + b;
      CbcAppend(E, E(XorSeq(X, a[..BLOCK])), a[BLOCK..], b);
    }
  }

  lemma CbcStep(E: BlockFn, X: Block, a: bytes, b: Block)
    requires |a| % BLOCK == 0
    ensures Cbc(E, X, a + b) == E(XorSeq(Cbc(E, X, a), b))
  {
    CbcAppend(E, X, a, b);
    var Y := Cbc(E, X, a);
    assert b[..BLOCK] == b && b[BLOCK..] == [];
    assert Cbc(E, Y, b) == Cbc(E, E(XorSeq(Y, b)), []);
  }

  // ----- block buffers -----

  method EncryptBlock(E: BlockFn, B: array<byte>, X: array<byte>)
    requires B.Length == X.Length == BLOCK
    modifies X
    ensures X[..] == E(old(B[..]))
  {
    var r := E(B[..]);
    forall i | 0 <= i < BLOCK {
      X[i] := r[i];
    }
    assert X[..] == r;
  }

  /** Writes v into the last L bytes, least significant byte last. */
  method PutLength(B: array<byte>, L: nat, value: nat)
    requires L <= B.Length
    modifies B
    ensures B[..] == old(B[..B.Length - L]) + PutBE(value, L)
  {
    var n := B.Length;
    var v, i := value, 0;
    while i < L
      invariant 0 <= i <= L
      invariant B[..n - L] == old(B[..n - L])
      invariant PutBE(value, L) == PutBE(v, L - i) + B[n - i..]
    {
      PutNext(v, L - i, B[n - i..]);
      hide PutBE;
      PutByte(B, n - 1 - i, v % 256);
      v, i := v / 256, i + 1;
    }
    assert B[..] == B[..n - L] + B[n - L..];
  }

  method PutByte(B: array<byte>, i: nat, b: byte)
    requires i < B.Length
    modifies B
    ensures B[i..] == [b] + old(B[i + 1..]) && B[..i] == old(B[..i])
  {
    B[i] := b;
  }

  /** block0: the first authentication block. */
  method FirstBlock(M: nat, L: nat, la: nat, lm: nat, nonce: bytes, result: array<byte>)
    requires 2 <= M <= BLOCK && 1 <= L <= 8 && |nonce| >= 15 - L && result.Length == BLOCK
    modifies result
    ensures result[..] == B0(M, L, nonce, la, lm)
  {
    result[0] := Flags(la, M, L);
    Copy(result, 1, nonce[..15 - L]);
    PutLength(result, L, lm);
  }

  /** SET_COUNTER: clears the last L bytes, then writes cnt until it is used up. */
  method SetCounter(A: array<byte>, L: nat, cnt: nat)
    requires A.Length == BLOCK && (L == 2 || L == 3)
    modifies A
    ensures A[..] == old(A[..BLOCK - L]) + PutBE(cnt % Pow256(L), L)
  {
    ghost var front := A[..BLOCK - L];
    Copy(A, BLOCK - L, Zeros(L));
    var C: nat := cnt % Pow256(L);
    var i := BLOCK - 1;
    ghost var value, k := C, L;                       // k bytes are still to come
    while C != 0 && i > L
      invariant i == BLOCK - 1 - L + k && 0 <= k <= L && C < Pow256(k)
      invariant A[..i + 1] == front + Zeros(k)
      invariant PutBE(value, L) == PutBE(C, k) + A[i + 1..]
      decreases C
    {
      OrZero(C % 256);
      PutStep(C, k);
      PutNext(C, k, A[i + 1..]);
      OneZeroLess(front, A[..i + 1], k);
      hide PutBE, Or;
      assert A[i] == A[..i + 1][i];
      PutByte(A, i, Or(A[i], C % 256));
      C, i, k := C / 256, i - 1, k - 1;
    }
    PutZero(k);
    hide PutBE;
    assert A[..] == A[..i + 1] + A[i + 1..];
    assert front + (Zeros(k) + A[i + 1..]) == (front + Zeros(k)) + A[i + 1..];
  }

  lemma OneZeroLess(front: bytes, s: bytes, k: nat)
    requires k > 0 && s == front + Zeros(k)
    ensures s[|s| - 1] == 0 && s[..|s| - 1] == front + Zeros(k - 1)
  {
  }

  lemma PutStep(v: nat, k: nat)
    requires v != 0 && v < Pow256(k)
    ensures k > 0 && v / 256 < Pow256(k - 1)
    ensures PutBE(v, k) == PutBE(v / 256, k - 1) + [v % 256]
  {
  }

  lemma PutNext(v: nat, k: nat, low: bytes)
    requires k > 0
    ensures PutBE(v, k) + low == PutBE(v / 256, k - 1) + ([v % 256] + low)
  {
  }

  lemma OrZero(b: byte)
    ensures Or(0, b) == b
  {
  }

  lemma {:induction false} PutZero(k: nat)
    ensures PutBE(0, k) == Zeros(k)
  {
    if k != 0 {
      PutZero(k - 1);
    }
  }

  // ----- the loops of ccm.c -----

  lemma NoBlocks(E: BlockFn, X: Block)
    ensures Cbc(E, X, []) == X && AuthBlocks([]) == []
  {
  }

  /** add_auth_data: the CBC-MAC over B_0 and the additional data. */
  method AddAuthData(E: BlockFn, aad: bytes, B: array<byte>, X: array<byte>)
    requires B != X && B.Length == X.Length == BLOCK
    requires |aad| < 0x1_0000_0000_0000_0000
    modifies B, X
    ensures X[..] == Cbc(E, E(old(B[..])), AuthBlocks(aad))
  {
    hide Pad, Cbc, LengthPrefix, XorSeq;
    EncryptBlock(E, B, X);
    Clear(B);
    if |aad| == 0 {
      NoBlocks(E, X[..]);
      return;
    }
    hide AuthBlocks;
    var prefix := LengthPrefix(|aad|);
    var j := |prefix|;
    var i := if BLOCK - j <= |aad| then BLOCK - j else |aad|;
    ghost var X1: Block := X[..];
    Copy(B, 0, prefix);
    assert B[..] == prefix + Zeros(BLOCK - j);
    Copy(B, j, aad[..i]);
    assert B[..] == prefix + aad[..i] + Zeros(BLOCK - j - i);
    XorInto(B, X[..]);
    FirstAuthBlock(E, X1, aad, i);
    EncryptBlock(E, B, X);
    AddAuthRest(E, aad[i..], B, X);
  }

  /** The first block holds the length and as much data as fits. */
  lemma FirstAuthBlock(E: BlockFn, X: Block, aad: bytes, i: nat)
    requires aad != []
    requires var j := |LengthPrefix(|aad|)|; i == if BLOCK - j <= |aad| then BLOCK - j else |aad|
    ensures var p := LengthPrefix(|aad|) + aad[..i];
            && |p| <= BLOCK
            && Cbc(E, X, AuthBlocks(aad))
            == Cbc(E, E(XorSeq(X, p + Zeros(BLOCK - |p|))), Pad(aad[i..]))
  {
    hide LengthPrefix, XorSeq, Pad, Cbc;
    var prefix := LengthPrefix(|aad|);
    var p, d := prefix + aad[..i], prefix + aad;
    assert AuthBlocks(aad) == Pad(d);
    PadFirst(d);
    assert d[..|p|] == p && d[|p|..] == aad[i..];
    CbcHead(E, X, p + Zeros(BLOCK - |p|), Pad(aad[i..]));
  }

  lemma PadFirst(d: bytes)
    requires d != []
    ensures var n := if |d| < BLOCK then |d| else BLOCK;
            Pad(d) == (d[..n] + Zeros(BLOCK - n)) + Pad(d[n..])
  {
    if |d| < BLOCK {
      assert |d| % BLOCK == |d|;
    } else {
      assert |d[BLOCK..]| % BLOCK == |d| % BLOCK;
    }
  }

  lemma CbcHead(E: BlockFn, X: Block, b: Block, rest: bytes)
    requires |rest| % BLOCK == 0
    ensures Cbc(E, X, b + rest) == Cbc(E, E(XorSeq(X, b)), rest)
  {
    assert (b + rest)[..BLOCK] == b && (b + rest)[BLOCK..] == rest;
  }

  /** The remaining data, block by block, the last one padded with zeros. */
  method AddAuthRest(E: BlockFn, rest: bytes, B: array<byte>, X: array<byte>)
    requires B != X && B.Length == X.Length == BLOCK
    modifies B, X
    ensures X[..] == Cbc(E, old(X[..]), Pad(rest))
  {
    ghost var X0: Block := X[..];
    var la, msg := |rest|, 0;
    assert rest[..0] == [];
    hide Pad, XorSeq;
    while la > BLOCK
      invariant 0 <= la == |rest| - msg
      invariant msg % BLOCK == 0
      invariant X[..] == Cbc(E, X0, rest[..msg])
    {
      hide Cbc;
      CbcPrefix(E, X0, rest, msg);
      Fill(B, XorSeq(X[..], rest[msg..msg + BLOCK]));
      la, msg := la - BLOCK, msg + BLOCK;
      EncryptBlock(E, B, X);
    }
    hide Cbc;
    if la != 0 {
      CbcPadded(E, X0, rest, msg);
      Clear(B);
      Copy(B, 0, rest[msg..]);
      assert B[..] == rest[msg..] + Zeros(BLOCK - la);
      XorInto(B, X[..]);
      EncryptBlock(E, B, X);
    } else {
      PadPrefix(rest, 0, 0);
      assert rest[..msg] == rest;
    }
  }

  method Fill(B: array<byte>, s: bytes)
    requires |s| == B.Length
    modifies B
    ensures B[..] == s
  {
    Copy(B, 0, s);
  }

  /** The last block, padded with zeros. */
  lemma CbcPadded(E: BlockFn, X0: Block, m: bytes, pos: nat)
    requires pos % BLOCK == 0 && pos < |m| <= pos + BLOCK
    ensures Cbc(E, X0, Pad(m)) == E(XorSeq(Cbc(E, X0, m[..pos]), m[pos..] + Zeros(pos + BLOCK - |m|)))
  {
    var all, last := Pad(m), m[pos..] + Zeros(pos + BLOCK - |m|);
    assert all == m[..pos] + last by {
      if |m| < pos + BLOCK {
        assert |m| % BLOCK == |m| - pos;
      }
    }
    hide Pad;
    CbcStep(E, X0, m[..pos], last);
  }

  /** Pad leaves the message where it is. */
  lemma PadPrefix(m: bytes, pos: nat, len: nat)
    requires pos + len <= |m|
    ensures Pad(m)[..pos] == m[..pos] && Pad(m)[pos..pos + len] == m[pos..pos + len]
    ensures |m| % BLOCK == 0 ==> Pad(m) == m
  {
  }

  lemma CbcPrefix(E: BlockFn, X: Block, m: bytes, pos: nat)
    requires pos % BLOCK == 0 && pos + BLOCK <= |m|
    ensures Cbc(E, X, m[..pos + BLOCK]) == E(XorSeq(Cbc(E, X, m[..pos]), m[pos..pos + BLOCK]))
  {
    assert m[..pos + BLOCK] == m[..pos] + m[pos..pos + BLOCK];
    CbcStep(E, X, m[..pos], m[pos..pos + BLOCK]);
  }

  // ----- messages -----

  lemma KeyByteIs(E: BlockFn, L: nat, nonce: bytes, pos: nat, i: nat)
    requires 1 <= L <= 8 && |nonce| >= 15 - L
    requires pos % BLOCK == 0 && i < BLOCK
    ensures KeyByte(E, L, nonce, pos + i) == E(CtrBlock(L, nonce, pos / BLOCK + 1))[i]
  {
    assert (pos + i) / BLOCK == pos / BLOCK && (pos + i) % BLOCK == i;
  }

  /** mac: absorbs len bytes; the rest of B already holds what is to be absorbed. */
  method Mac(E: BlockFn, msg: array<byte>, off: nat, len: nat, B: array<byte>, X: array<byte>)
    requires B != X && msg != B && msg != X && B.Length == X.Length == BLOCK
    requires len <= BLOCK && off + len <= msg.Length
    modifies B, X
    ensures X[..] == E(XorSeq(old(X[..len]), msg[off..off + len]) + old(B[len..]))
  {
    var x := XorSeq(X[..len], msg[off..off + len]);
    Copy(B, 0, x);
    assert B[..] == x + old(B[len..]);
    EncryptBlock(E, B, X);
  }

  predicate Counting(L: nat, nonce: bytes, A: seq<byte>)
  {
    |A| == BLOCK && (L == 2 || L == 3) && |nonce| >= 15 - L && A[..BLOCK - L] == [L - 1] + nonce[..15 - L]
  }

  /** encrypt: XORs len bytes of msg with the key stream block of this counter. */
  method CounterBlock(E: BlockFn, L: nat, ghost nonce: bytes, counter: nat, msg: array<byte>, off: nat,
                      len: nat, A: array<byte>, S: array<byte>)
    requires A != S && msg != A && msg != S && S.Length == BLOCK
    requires Counting(L, nonce, A[..]) && counter < Pow256(L)
    requires len <= BLOCK && off + len <= msg.Length
    modifies A, S, msg
    ensures Counting(L, nonce, A[..])
    ensures S[..] == E(CtrBlock(L, nonce, counter))
    ensures forall k :: 0 <= k < msg.Length ==>
              msg[k] == if off <= k < off + len then Xor(old(msg[k]), S[k - off]) else old(msg[k])
  {
    assert A[..][..BLOCK - L] == A[..BLOCK - L];
    SetCounter(A, L, counter);
    assert counter % Pow256(L) == counter;
    EncryptBlock(E, A, S);
    forall k | off <= k < off + len {
      msg[k] := Xor(msg[k], S[k - off]);
    }
  }

  method StartCounter(L: nat, nonce: bytes, A: array<byte>)
    requires A.Length == BLOCK && (L == 2 || L == 3) && |nonce| >= 15 - L
    modifies A
    ensures Counting(L, nonce, A[..])
  {
    A[0] := L - 1;
    Copy(A, 1, nonce[..15 - L]);
  }

  /** The buffer once pos of its message bytes have been run through counter mode. */
  ghost predicate CryptedTo(E: BlockFn, L: nat, nonce: bytes, was: bytes, now: bytes, off: nat, pos: nat)
  {
    && 1 <= L <= 8 && |nonce| >= 15 - L
    && |now| == |was|
    && forall k :: 0 <= k < |was| ==>
         now[k] == if off <= k < off + pos then Xor(was[k], KeyByte(E, L, nonce, k - off)) else was[k]
  }

  /** One counter block of the loop, at position pos of the message. */
  method CryptAt(E: BlockFn, L: nat, ghost nonce: bytes, ghost was: bytes, msg: array<byte>, off: nat,
                 pos: nat, len: nat, counter: nat, A: array<byte>, S: array<byte>)
    requires A != S && msg != A && msg != S && S.Length == BLOCK
    requires Counting(L, nonce, A[..]) && counter == pos / BLOCK + 1 < Pow256(L)
    requires CryptedTo(E, L, nonce, was, msg[..], off, pos)
    requires pos % BLOCK == 0 && len <= BLOCK && off + pos + len <= msg.Length
    modifies A, S, msg
    ensures Counting(L, nonce, A[..])
    ensures CryptedTo(E, L, nonce, was, msg[..], off, pos + len)
  {
    hide CtrBlock, Pow256;
    ghost var before := msg[..];
    CounterBlock(E, L, nonce, counter, msg, off + pos, len, A, S);
    hide Counting;
    forall k | 0 <= k < |was|
      ensures msg[k] == if off <= k < off + pos + len then Xor(was[k], KeyByte(E, L, nonce, k - off)) else was[k]
    {
      assert before[k] == if off <= k < off + pos then Xor(was[k], KeyByte(E, L, nonce, k - off)) else was[k];
      if off + pos <= k < off + pos + len {
        KeyByteIs(E, L, nonce, pos, k - off - pos);
      }
    }
  }

  /** The last, short block: B holds X beyond the message, which is X XOR 0. */
  lemma CbcLast(E: BlockFn, X0: Block, m: bytes, pos: nat)
    requires pos % BLOCK == 0 && pos < |m| < pos + BLOCK
    ensures var X := Cbc(E, X0, m[..pos]);
            Cbc(E, X0, Pad(m)) == E(XorSeq(X[..|m| - pos], m[pos..]) + X[|m| - pos..])
  {
    hide Pad, Cbc;
    CbcPadded(E, X0, m, pos);
    var X, n := Cbc(E, X0, m[..pos]), |m| - pos;
    var last := XorSeq(X, m[pos..] + Zeros(BLOCK - n));
    forall i | n <= i < BLOCK ensures last[i] == X[i] {
      XorNatCommutes(X[i], 0);
    }
    assert last == XorSeq(X[..n], m[pos..]) + X[n..];
  }

  /** The message bytes from pos on are still those the buffer started with. */
  lemma CryptedAhead(E: BlockFn, L: nat, nonce: bytes, was: bytes, now: bytes, off: nat, lm: nat, pos: nat,
                     len: nat)
    requires CryptedTo(E, L, nonce, was, now, off, pos) && pos + len <= lm && off + lm <= |was|
    ensures |now| == |was|
    ensures now[off + pos..off + pos + len] == was[off..off + lm][pos..pos + len]
  {
    var a, b := now[off + pos..off + pos + len], was[off..off + lm][pos..pos + len];
    forall i | 0 <= i < len ensures a[i] == b[i] {
      assert a[i] == now[off + pos + i];
    }
  }

  /** One full round of the encryption loop: authenticate, then encrypt. */
  method SealBlock(E: BlockFn, L: nat, ghost nonce: bytes, ghost was: bytes, ghost X0: Block, msg: array<byte>,
                   off: nat, ghost lm: nat, pos: nat, counter: nat,
                   A: array<byte>, B: array<byte>, S: array<byte>, X: array<byte>)
    requires A != S && B != X && S != X && S != B && A != B && A != X
    requires msg != A && msg != S && msg != B && msg != X
    requires S.Length == B.Length == X.Length == BLOCK
    requires Counting(L, nonce, A[..]) && counter == pos / BLOCK + 1 < Pow256(L)
    requires off + lm <= msg.Length && pos % BLOCK == 0 && pos + BLOCK <= lm
    requires CryptedTo(E, L, nonce, was, msg[..], off, pos)
    requires X[..] == Cbc(E, X0, was[off..off + lm][..pos])
    modifies msg, A, B, S, X
    ensures Counting(L, nonce, A[..])
    ensures CryptedTo(E, L, nonce, was, msg[..], off, pos + BLOCK)
    ensures X[..] == Cbc(E, X0, was[off..off + lm][..pos + BLOCK])
  {
    hide Counting, Cbc, Pow256, XorSeq, Crypt, KeyByte;
    ghost var m := was[off..off + lm];
    ghost var x, b := X[..], msg[off + pos..off + pos + BLOCK];
    hide CryptedTo;
    CryptedAhead(E, L, nonce, was, msg[..], off, lm, pos, BLOCK);
    CbcPrefix(E, X0, m, pos);
    assert X[..BLOCK] == x && B[BLOCK..] == [];
    Mac(E, msg, off + pos, BLOCK, B, X);
    assert XorSeq(x, b) + [] == XorSeq(x, b);
    CryptAt(E, L, nonce, was, msg, off, pos, BLOCK, counter, A, S);
  }

  /** memcpy(B + len, X + len, 16 - len) */
  method CopyTail(B: array<byte>, X: array<byte>, len: nat)
    requires B != X && B.Length == X.Length && len <= B.Length
    modifies B
    ensures B[len..] == X[len..]
  {
    Copy(B, len, X[len..]);
  }

  /** Authenticates the last, short block. */
  method MacLast(E: BlockFn, ghost X0: Block, ghost m: bytes, msg: array<byte>, at: nat, left: nat,
                 B: array<byte>, X: array<byte>)
    requires B != X && msg != B && msg != X && B.Length == X.Length == BLOCK
    requires 0 < left < BLOCK && left <= |m| && (|m| - left) % BLOCK == 0 && at + left <= msg.Length
    requires msg[at..at + left] == m[|m| - left..|m|]
    requires X[..] == Cbc(E, X0, m[..|m| - left])
    modifies B, X
    ensures X[..] == Cbc(E, X0, Pad(m))
  {
    hide Cbc, Pad, XorSeq;
    ghost var x := X[..];
    CbcLast(E, X0, m, |m| - left);
    assert m[|m| - left..|m|] == m[|m| - left..];
    CopyTail(B, X, left);
    assert B[left..] == x[left..] && X[..left] == x[..left];
    Mac(E, msg, at, left, B, X);
  }

  /** The last, short block of the message, if there is one. */
  method SealRest(E: BlockFn, L: nat, ghost nonce: bytes, ghost was: bytes, ghost X0: Block, msg: array<byte>,
                  off: nat, ghost lm: nat, pos: nat, left: nat, counter: nat,
                  A: array<byte>, B: array<byte>, S: array<byte>, X: array<byte>)
    requires A != S && B != X && S != X && S != B && A != B && A != X
    requires msg != A && msg != S && msg != B && msg != X
    requires S.Length == B.Length == X.Length == BLOCK
    requires Counting(L, nonce, A[..]) && counter == pos / BLOCK + 1 && lm < Pow256(L)
    requires off + lm <= msg.Length && pos % BLOCK == 0 && left < BLOCK && pos + left == lm
    requires CryptedTo(E, L, nonce, was, msg[..], off, pos)
    requires X[..] == Cbc(E, X0, was[off..off + lm][..pos])
    modifies msg, A, B, S, X
    ensures Counting(L, nonce, A[..])
    ensures CryptedTo(E, L, nonce, was, msg[..], off, lm)
    ensures X[..] == Cbc(E, X0, Pad(was[off..off + lm]))
  {
    ghost var m := was[off..off + lm];
    hide Counting, Cbc, Pow256, CryptedTo, XorSeq, KeyByte, Crypt;
    PadPrefix(m, pos, 0);
    hide Pad;
    if left != 0 {
      CryptedAhead(E, L, nonce, was, msg[..], off, lm, pos, left);
      MacLast(E, X0, m, msg, off + pos, left, B, X);
      CryptAt(E, L, nonce, was, msg, off, pos, left, counter, A, S);
    } else {
      assert m[..pos] == m;
    }
  }

  /** Counter mode over the message part, seen as one string. */
  lemma CryptedWhole(E: BlockFn, L: nat, nonce: bytes, was: bytes, now: bytes, off: nat, lm: nat)
    requires CryptedTo(E, L, nonce, was, now, off, lm) && off + lm <= |was|
    ensures now == Splice(was, off, Crypt(E, L, nonce, was[off..off + lm]))
  {
  }

  /** The authentication of the header and the template of the counter blocks. */
  method Prepare(E: BlockFn, M: nat, L: nat, nonce: bytes, lm: nat, aad: bytes,
                 A: array<byte>, B: array<byte>, X: array<byte>)
    requires Params(M, L, nonce, aad, lm)
    requires A != B && A != X && B != X && A.Length == B.Length == X.Length == BLOCK
    modifies A, B, X
    ensures Counting(L, nonce, A[..])
    ensures X[..] == Cbc(E, E(B0(M, L, nonce, |aad|, lm)), AuthBlocks(aad))
  {
    FirstBlock(M, L, |aad|, lm, nonce, B);
    AddAuthData(E, aad, B, X);
    StartCounter(L, nonce, A);
  }

  /** S_0, the block that covers the tag. */
  method KeyBlockZero(E: BlockFn, L: nat, ghost nonce: bytes, A: array<byte>, S: array<byte>)
    requires Counting(L, nonce, A[..]) && S.Length == BLOCK && A != S
    modifies A, S
    ensures S[..] == E(CtrBlock(L, nonce, 0))
  {
    assert A[..][..BLOCK - L] == A[..BLOCK - L];
    SetCounter(A, L, 0);
    assert 0 % Pow256(L) == 0;
    EncryptBlock(E, A, S);
  }

  lemma TagIs(E: BlockFn, M: nat, L: nat, nonce: bytes, aad: bytes, m: bytes, X: bytes, S: bytes)
    requires Params(M, L, nonce, aad, |m|)
    requires X == MacBlock(E, M, L, nonce, aad, m) && S == E(CtrBlock(L, nonce, 0))
    ensures |X| == |S| == BLOCK
    ensures XorSeq(X[..M], S[..M]) == Tag(E, M, L, nonce, aad, m)
  {
  }

  method AppendTag(E: BlockFn, M: nat, L: nat, ghost nonce: bytes, ghost aad: bytes, ghost m: bytes,
                   msg: array<byte>, at: nat, A: array<byte>, S: array<byte>, X: array<byte>)
    requires A != S && S != X && A != X && msg != A && msg != S && msg != X
    requires S.Length == BLOCK && Counting(L, nonce, A[..])
    requires Params(M, L, nonce, aad, |m|) && at + M <= msg.Length
    requires X[..] == MacBlock(E, M, L, nonce, aad, m)
    modifies msg, A, S
    ensures msg[..] == Splice(old(msg[..]), at, Tag(E, M, L, nonce, aad, m))
  {
    hide Counting, MacBlock, CtrBlock;
    KeyBlockZero(E, L, nonce, A, S);
    TagIs(E, M, L, nonce, aad, m, X[..], S[..]);
    hide XorSeq, Tag;
    Copy(msg, at, XorSeq(X[..M], S[..M]));
  }

  /** The loop over the message: authenticate then encrypt each block. */
  method EncryptBlocks(E: BlockFn, L: nat, ghost nonce: bytes, msg: array<byte>, off: nat, lm: nat,
                       A: array<byte>, B: array<byte>, S: array<byte>, X: array<byte>)
    requires A != S && B != X && S != X && S != B && A != B && A != X
    requires msg != A && msg != S && msg != B && msg != X
    requires S.Length == B.Length == X.Length == BLOCK
    requires Counting(L, nonce, A[..]) && off + lm <= msg.Length && lm < Pow256(L)
    modifies msg, A, B, S, X
    ensures Counting(L, nonce, A[..])
    ensures X[..] == Cbc(E, old(X[..]), Pad(old(msg[off..off + lm])))
    ensures msg[..] == Splice(old(msg[..]), off, Crypt(E, L, nonce, old(msg[off..off + lm])))
  {
    ghost var was, X0: Block := msg[..], X[..];
    ghost var m := was[off..off + lm];
    var left, pos, counter := lm, 0, 1;
    Unstarted(E, L, nonce, was, m, off, X0);
    hide CryptedTo, Cbc, Counting, Pad, Crypt, Pow256, Splice;
    while left >= BLOCK
      invariant left + pos == lm && 0 <= left && pos % BLOCK == 0 && counter == pos / BLOCK + 1
      invariant CryptedTo(E, L, nonce, was, msg[..], off, pos)
      invariant X[..] == Cbc(E, X0, m[..pos])
      invariant Counting(L, nonce, A[..])
    {
      SealBlock(E, L, nonce, was, X0, msg, off, lm, pos, counter, A, B, S, X);
      left, pos, counter := left - BLOCK, pos + BLOCK, counter + 1;
    }
    SealRest(E, L, nonce, was, X0, msg, off, lm, pos, left, counter, A, B, S, X);
    CryptedWhole(E, L, nonce, was, msg[..], off, lm);
  }

  /** dtls_ccm_encrypt_message */
  method EncryptMessage(E: BlockFn, M: nat, L: nat, nonce: bytes, msg: array<byte>, off: nat, lm: nat,
                        aad: bytes)
    returns (r: int)
    requires Params(M, L, nonce, aad, lm) && off + lm + M <= msg.Length
    modifies msg
    ensures r == lm + M
    ensures msg[..] == Splice(old(msg[..]), off, Encrypt(E, M, L, nonce, aad, old(msg[off..off + lm])))
  {
    hide B0, AuthBlocks, Pad, CtrBlock, Pow256, Counting, Crypt, XorSeq, Tag, Cbc, Splice;
    var A, B, S, X := new byte[BLOCK], new byte[BLOCK], new byte[BLOCK], new byte[BLOCK];
    ghost var was, m := msg[..], msg[off..off + lm];
    Prepare(E, M, L, nonce, lm, aad, A, B, X);
    EncryptBlocks(E, L, nonce, msg, off, lm, A, B, S, X);
    AppendTag(E, M, L, nonce, aad, m, msg, off + lm, A, S, X);
    SpliceTwice(was, off, Crypt(E, L, nonce, m), Tag(E, M, L, nonce, aad, m));
    r := lm + M;
  }

  // ----- decryption -----

  /** The message bytes before pos have been run through counter mode. */
  lemma CryptedBehind(E: BlockFn, L: nat, nonce: bytes, was: bytes, now: bytes, off: nat, lm: nat, pos: nat,
                      len: nat)
    requires CryptedTo(E, L, nonce, was, now, off, pos + len) && pos + len <= lm && off + lm <= |was|
    ensures |now| == |was|
    ensures now[off + pos..off + pos + len] == Crypt(E, L, nonce, was[off..off + lm])[pos..pos + len]
  {
    hide KeyByte, Xor;
    var m := was[off..off + lm];
    var c := Crypt(E, L, nonce, m);
    var a, b := now[off + pos..off + pos + len], c[pos..pos + len];
    forall i | 0 <= i < len ensures a[i] == b[i] {
      var k := off + pos + i;
      assert m[pos + i] == was[k];
      assert a[i] == now[k] == Xor(was[k], KeyByte(E, L, nonce, pos + i));
      assert b[i] == c[pos + i] == Xor(m[pos + i], KeyByte(E, L, nonce, pos + i));
    }
  }

  /** One full round of the decryption loop: decrypt, then authenticate. */
  method OpenBlock(E: BlockFn, L: nat, ghost nonce: bytes, ghost was: bytes, ghost X0: Block, msg: array<byte>,
                   off: nat, ghost lm: nat, pos: nat, counter: nat,
                   A: array<byte>, B: array<byte>, S: array<byte>, X: array<byte>)
    requires A != S && B != X && S != X && S != B && A != B && A != X
    requires msg != A && msg != S && msg != B && msg != X
    requires S.Length == B.Length == X.Length == BLOCK
    requires Counting(L, nonce, A[..]) && counter == pos / BLOCK + 1 < Pow256(L) && |nonce| >= 15 - L
    requires 1 <= L <= 8 && off + lm <= msg.Length == |was| && pos % BLOCK == 0 && pos + BLOCK <= lm
    requires CryptedTo(E, L, nonce, was, msg[..], off, pos)
    requires X[..] == Cbc(E, X0, Crypt(E, L, nonce, was[off..off + lm])[..pos])
    modifies msg, A, B, S, X
    ensures Counting(L, nonce, A[..])
    ensures CryptedTo(E, L, nonce, was, msg[..], off, pos + BLOCK)
    ensures X[..] == Cbc(E, X0, Crypt(E, L, nonce, was[off..off + lm])[..pos + BLOCK])
  {
    hide Counting, Cbc, Pow256, CryptedTo;
    ghost var p := Crypt(E, L, nonce, was[off..off + lm]);
    hide Crypt;
    CryptAt(E, L, nonce, was, msg, off, pos, BLOCK, counter, A, S);
    CryptedBehind(E, L, nonce, was, msg[..], off, lm, pos, BLOCK);
    CbcPrefix(E, X0, p, pos);
    ghost var x, b := X[..], msg[off + pos..off + pos + BLOCK];
    assert X[..BLOCK] == x && B[BLOCK..] == [];
    Mac(E, msg, off + pos, BLOCK, B, X);
    assert XorSeq(x, b) + [] == XorSeq(x, b);
  }

  /** The last, short block of the message, if there is one. */
  method OpenRest(E: BlockFn, L: nat, ghost nonce: bytes, ghost was: bytes, ghost X0: Block, msg: array<byte>,
                  off: nat, ghost lm: nat, pos: nat, left: nat, counter: nat,
                  A: array<byte>, B: array<byte>, S: array<byte>, X: array<byte>)
    requires A != S && B != X && S != X && S != B && A != B && A != X
    requires msg != A && msg != S && msg != B && msg != X
    requires S.Length == B.Length == X.Length == BLOCK
    requires Counting(L, nonce, A[..]) && counter == pos / BLOCK + 1 && lm < Pow256(L) && |nonce| >= 15 - L
    requires 1 <= L <= 8 && off + lm <= msg.Length == |was|
    requires pos % BLOCK == 0 && left < BLOCK && pos + left == lm
    requires CryptedTo(E, L, nonce, was, msg[..], off, pos)
    requires X[..] == Cbc(E, X0, Crypt(E, L, nonce, was[off..off + lm])[..pos])
    modifies msg, A, B, S, X
    ensures Counting(L, nonce, A[..])
    ensures CryptedTo(E, L, nonce, was, msg[..], off, lm)
    ensures X[..] == Cbc(E, X0, Pad(Crypt(E, L, nonce, was[off..off + lm])))
  {
    hide Counting, Cbc, Pow256, CryptedTo;
    ghost var p := Crypt(E, L, nonce, was[off..off + lm]);
    hide Crypt;
    if left != 0 {
      hide Pad;
      CryptAt(E, L, nonce, was, msg, off, pos, left, counter, A, S);
      assert |p| - left == pos && |p| == lm;
      assert msg[off + pos..off + pos + left] == p[pos..lm] by {
        CryptedBehind(E, L, nonce, was, msg[..], off, lm, pos, left);
        assert msg[off + pos..off + pos + left] == msg[..][off + pos..off + pos + left];
      }
      hide *;
      MacLast(E, X0, p, msg, off + pos, left, B, X);
    } else {
      PadPrefix(p, pos, 0);
      assert p[..pos] == p;
    }
  }

  /** The loop over the ciphertext: decrypt, then authenticate each block. */
  method DecryptBlocks(E: BlockFn, L: nat, ghost nonce: bytes, msg: array<byte>, off: nat, lm: nat,
                       A: array<byte>, B: array<byte>, S: array<byte>, X: array<byte>)
    requires A != S && B != X && S != X && S != B && A != B && A != X
    requires msg != A && msg != S && msg != B && msg != X
    requires S.Length == B.Length == X.Length == BLOCK && |nonce| >= 15 - L && 1 <= L <= 8
    requires Counting(L, nonce, A[..]) && off + lm <= msg.Length && lm < Pow256(L)
    modifies msg, A, B, S, X
    ensures Counting(L, nonce, A[..])
    ensures X[..] == Cbc(E, old(X[..]), Pad(Crypt(E, L, nonce, old(msg[off..off + lm]))))
    ensures msg[..] == Splice(old(msg[..]), off, Crypt(E, L, nonce, old(msg[off..off + lm])))
  {
    ghost var was, X0: Block := msg[..], X[..];
    ghost var p := Crypt(E, L, nonce, was[off..off + lm]);
    var left, pos, counter := lm, 0, 1;
    Unstarted(E, L, nonce, was, p, off, X0);
    hide CryptedTo, Cbc, Counting, Pad, Crypt, Pow256, Splice;
    while left >= BLOCK
      invariant left + pos == lm && 0 <= left && pos % BLOCK == 0 && counter == pos / BLOCK + 1
      invariant CryptedTo(E, L, nonce, was, msg[..], off, pos)
      invariant X[..] == Cbc(E, X0, p[..pos])
      invariant Counting(L, nonce, A[..])
    {
      OpenBlock(E, L, nonce, was, X0, msg, off, lm, pos, counter, A, B, S, X);
      left, pos, counter := left - BLOCK, pos + BLOCK, counter + 1;
    }
    OpenRest(E, L, nonce, was, X0, msg, off, lm, pos, left, counter, A, B, S, X);
    CryptedWhole(E, L, nonce, was, msg[..], off, lm);
  }

  /** equals: compares every byte, whatever the earlier ones were. */
  method Equals(a: bytes, b: bytes) returns (result: bool)
    requires |a| == |b|
    ensures result <==> a == b
  {
    result := true;
    for i := 0 to |a|
      invariant result <==> a[..i] == b[..i]
    {
      assert a[..i + 1] == a[..i] + [a[i]] && b[..i + 1] == b[..i] + [b[i]];
      result := result && a[i] == b[i];
    }
    assert a[..|a|] == a && b[..|b|] == b;
  }

  lemma XorSeqCancels(a: bytes, b: bytes)
    requires |a| == |b|
    ensures XorSeq(XorSeq(a, b), b) == a
  {
    forall i | 0 <= i < |a| ensures XorSeq(XorSeq(a, b), b)[i] == a[i] {
      XorCancels(a[i], b[i]);
    }
  }

  lemma MaskedEqual(x: bytes, s: bytes, t: bytes)
    requires |x| == |s| == |t|
    ensures x == XorSeq(t, s) <==> XorSeq(x, s) == t
  {
    XorSeqCancels(x, s);
    XorSeqCancels(t, s);
  }

  /** The tag comparison accepts exactly the encryptions of what was recovered. */
  lemma TagDecides(E: BlockFn, M: nat, L: nat, nonce: bytes, aad: bytes, c: bytes, X: bytes, S: bytes)
    requires M <= |c| && Params(M, L, nonce, aad, |c| - M)
    requires var p := Recovered(E, M, L, nonce, c); X == MacBlock(E, M, L, nonce, aad, p)
    requires S == E(CtrBlock(L, nonce, 0))
    ensures |X| == |S| == BLOCK
    ensures X[..M] == XorSeq(c[|c| - M..], S[..M])
       <==> c == Encrypt(E, M, L, nonce, aad, Recovered(E, M, L, nonce, c))
  {
    hide XorSeq, MacBlock, Tag, CtrBlock, Crypt;
    var p, n := Recovered(E, M, L, nonce, c), |c| - M;
    TagIs(E, M, L, nonce, aad, p, X, S);
    CryptInverts(E, L, nonce, c[..n]);
    var x, s, t := X[..M], S[..M], c[n..];
    MaskedEqual(x, s, t);
    assert c == c[..n] + t;
    assert Encrypt(E, M, L, nonce, aad, p) == c[..n] + XorSeq(x, s);
    hide *;
    assert c[..n] + XorSeq(x, s) == c[..n] + t <==> XorSeq(x, s) == t by {
      assert (c[..n] + XorSeq(x, s))[n..] == XorSeq(x, s);
    }
  }

  /** Unmasks the received tag with S_0 and compares it with the computed one. */
  method CheckTag(E: BlockFn, M: nat, L: nat, ghost nonce: bytes, ghost aad: bytes, ghost c: bytes,
                  msg: array<byte>, at: nat, A: array<byte>, S: array<byte>, X: array<byte>)
    returns (good: bool)
    requires A != S && S != X && A != X && msg != A && msg != S && msg != X
    requires S.Length == BLOCK && Counting(L, nonce, A[..])
    requires M <= |c| && Params(M, L, nonce, aad, |c| - M) && at + M <= msg.Length
    requires X[..] == MacBlock(E, M, L, nonce, aad, Recovered(E, M, L, nonce, c))
    requires msg[at..at + M] == c[|c| - M..]
    modifies msg, A, S
    ensures msg[..] == Splice(old(msg[..]), at, Unmasked(E, M, L, nonce, c))
    ensures good <==> c == Encrypt(E, M, L, nonce, aad, Recovered(E, M, L, nonce, c))
  {
    hide Counting, CtrBlock, MacBlock, Recovered, Encrypt;
    KeyBlockZero(E, L, nonce, A, S);
    TagDecides(E, M, L, nonce, aad, c, X[..], S[..]);
    hide XorSeq;
    var t := XorSeq(msg[at..at + M], S[..M]);
    Copy(msg, at, t);
    assert msg[at..at + M] == t;
    good := Equals(X[..M], msg[at..at + M]);
  }

  /** The loops over header and ciphertext, leaving the tag to be checked. */
  method Recover(E: BlockFn, M: nat, L: nat, nonce: bytes, ghost c: bytes,
                 msg: array<byte>, off: nat, lm: nat, aad: bytes,
                 A: array<byte>, B: array<byte>, S: array<byte>, X: array<byte>)
    requires A != S && B != X && S != X && S != B && A != B && A != X
    requires msg != A && msg != S && msg != B && msg != X
    requires A.Length == S.Length == B.Length == X.Length == BLOCK
    requires M <= lm && Params(M, L, nonce, aad, lm - M) && off + lm <= msg.Length
    requires c == msg[off..off + lm]
    modifies msg, A, B, S, X
    ensures Counting(L, nonce, A[..])
    ensures X[..] == MacBlock(E, M, L, nonce, aad, Recovered(E, M, L, nonce, c))
    ensures msg[..] == Splice(old(msg[..]), off, Recovered(E, M, L, nonce, c))
    ensures msg[off + lm - M..off + lm] == c[lm - M..]
  {
    hide B0, AuthBlocks, Pad, CtrBlock, Pow256, Counting, Crypt, XorSeq, Cbc, Splice;
    ghost var was, n := msg[..], lm - M;
    ghost var p := Recovered(E, M, L, nonce, c);
    assert c[..n] == was[off..off + n];
    Prepare(E, M, L, nonce, lm - M, aad, A, B, X);
    DecryptBlocks(E, L, nonce, msg, off, lm - M, A, B, S, X);
    SpliceBehind(was, off, p, M);
    assert msg[off + n..off + lm] == msg[..][off + n..off + lm];
  }

  /** Whether c is accepted: exactly when it encrypts what is recovered from it. */
  function Accepted(E: BlockFn, M: nat, L: nat, nonce: bytes, aad: bytes, c: bytes): bool
    requires Params(M, L, nonce, aad, if |c| < M then 0 else |c| - M)
  {
    M <= |c| && c == Encrypt(E, M, L, nonce, aad, Recovered(E, M, L, nonce, c))
  }

  method OpenMessage(E: BlockFn, M: nat, L: nat, nonce: bytes, ghost c: bytes,
                     msg: array<byte>, off: nat, lm: nat, aad: bytes)
    returns (good: bool)
    requires M <= lm && Params(M, L, nonce, aad, lm - M) && off + lm <= msg.Length
    requires c == msg[off..off + lm]
    modifies msg
    ensures good == Accepted(E, M, L, nonce, aad, c)
    ensures msg[..] == Splice(old(msg[..]), off, Recovered(E, M, L, nonce, c) + Unmasked(E, M, L, nonce, c))
  {
    hide MacBlock, CtrBlock, Pow256, Counting, Recovered, XorSeq, Encrypt, Unmasked, Splice;
    var A, B, S, X := new byte[BLOCK], new byte[BLOCK], new byte[BLOCK], new byte[BLOCK];
    ghost var was := msg[..];
    Recover(E, M, L, nonce, c, msg, off, lm, aad, A, B, S, X);
    good := CheckTag(E, M, L, nonce, aad, c, msg, off + lm - M, A, S, X);
    SpliceTwice(was, off, Recovered(E, M, L, nonce, c), Unmasked(E, M, L, nonce, c));
  }

  /**
   * dtls_ccm_decrypt_message: the plaintext it recovers, and the unmasked tag
   * behind it, are in the buffer whether or not the message is accepted.
   */
  method DecryptMessage(E: BlockFn, M: nat, L: nat, nonce: bytes, msg: array<byte>, off: nat, lm: nat,
                        aad: bytes)
    returns (r: int)
    requires Params(M, L, nonce, aad, if lm < M then 0 else lm - M) && off + lm <= msg.Length
    modifies msg
    ensures r == if Accepted(E, M, L, nonce, aad, old(msg[off..off + lm])) then lm - M else -1
    ensures if lm < M then msg[..] == old(msg[..]) else
              var c := old(msg[off..off + lm]);
              msg[..] == Splice(old(msg[..]), off, Recovered(E, M, L, nonce, c) + Unmasked(E, M, L, nonce, c))
  {
    if lm < M {
      return -1;
    }
    hide Recovered, Unmasked, Splice, Encrypt;
    var good := OpenMessage(E, M, L, nonce, msg[off..off + lm], msg, off, lm, aad);
    r := if good then lm - M else -1;
  }

  /** Whatever is encrypted is accepted and comes back. */
  lemma DecryptsWhatWasEncrypted(E: BlockFn, M: nat, L: nat, nonce: bytes, aad: bytes, m: bytes)
    requires Params(M, L, nonce, aad, |m|)
    ensures Recovered(E, M, L, nonce, Encrypt(E, M, L, nonce, aad, m)) == m
  {
    CryptInverts(E, L, nonce, m);
    var c := Encrypt(E, M, L, nonce, aad, m);
    hide Crypt, Tag;
    assert c[..|c| - M] == Crypt(E, L, nonce, m);
  }

  lemma Unstarted(E: BlockFn, L: nat, nonce: bytes, was: bytes, m: bytes, off: nat, X: Block)
    requires 1 <= L <= 8 && |nonce| >= 15 - L
    ensures CryptedTo(E, L, nonce, was, was, off, 0)
    ensures X == Cbc(E, X, m[..0])
  {
    assert m[..0] == [];
  }
}
