/**
 * What the formulas of the other modules say in the terms of the standards they
 * follow: which part of the key block is whose, where each byte of a nonce or of
 * the additional data comes from, what exactly is hashed, and that no two inputs
 * of the cipher look alike.
 */
module Standards {
  import opened Bytes
  import opened Record
  import opened Prf
  import Ccm
  import Engine
  import Session
  import Slots

  // ----- the key block: section 6.3 of RFC 5246 -----

  /** The key block is the four parts in this order. */
  lemma KeyBlockParts(kb: KeyBlock)
    ensures |WriteKey(kb, Client)| == 16 && |WriteKey(kb, Server)| == 16
    ensures |WriteIv(kb, Client)| == 4 && |WriteIv(kb, Server)| == 4
    ensures WriteKey(kb, Client) + WriteKey(kb, Server) + WriteIv(kb, Client) + WriteIv(kb, Server) == kb
  {
  }

  // ----- a sealed record: section 3 of RFC 6655, section 6.2.3.3 of RFC 5246 -----

  /**
   * A sealed record: behind the header comes a copy of its epoch and number, and
   * behind that the AEAD output. The key is the first 16 bytes of the key block
   * for a client and the next 16 for a server; the nonce is the four bytes of
   * salt that follow for the same role, that copy, and four zeros; the additional
   * data is, in the bytes of the record, epoch and number, type and version, and
   * the length of the payload.
   */
  lemma SealedUnderOwnKey(aes: Aes, role: Role, kb: KeyBlock, h: Header, payload: bytes)
    requires |payload| + 16 < 0x1_0000
    ensures var r := SealedRecord(aes, role, kb, h, payload);
            && |r| == RH_LENGTH + 8 + |payload| + 8 && r[RH_LENGTH..RH_LENGTH + 8] == r[3..11]
            && var key, salt := if role.Client? then kb[..16] else kb[16..32], if role.Client? then kb[32..36] else kb[36..];
               var nonce, aad := salt + r[3..11] + [0, 0, 0, 0], r[3..11] + r[..3] + PutBE(|payload|, 2);
               && Ccm.Params(8, 3, nonce, aad, |payload|)
               && r[RH_LENGTH + 8..] == Ccm.Encrypt(Keyed(aes, key), 8, 3, nonce, aad, payload)
  {
    hide PutBE, Ccm.Encrypt, WriteKey, WriteIv, Keyed, SealedBody, Header.ToBytes, Header.Number, AdditionalData, Ccm.Params;
    var head, body := h.ToBytes(8 + |payload| + MAC_LENGTH), SealedBody(aes, role, kb, h, payload);
    HeadParts(h, 8 + |payload| + MAC_LENGTH);
    BodyIs(aes, role, kb, h, payload);
    RecordIsSplit(head, body);
    DataIs(h, payload, head);
    OwnParts(kb, role);
    var nonce := WriteIv(kb, role) + h.Number() + [0, 0, 0, 0];
    SameParts(body[..8], body[8..], h.Number(),
              Ccm.Encrypt(Keyed(aes, WriteKey(kb, role)), 8, 3, nonce, AdditionalData(h, |payload|), payload));
  }

  lemma OwnParts(kb: KeyBlock, role: Role)
    ensures WriteKey(kb, role) == if role.Client? then kb[..16] else kb[16..32]
    ensures WriteIv(kb, role) == if role.Client? then kb[32..36] else kb[36..]
  {
  }

  lemma DataIs(h: Header, payload: bytes, head: bytes)
    requires |head| == RH_LENGTH && head[3..11] == h.Number() && head[..3] == [h.ctype] + PutBE(h.version, 2)
    ensures head[3..11] + head[..3] + PutBE(|payload|, 2) == AdditionalData(h, |payload|)
  {
    hide PutBE, Header.Number;
  }

  lemma HeadParts(h: Header, n: nat)
    ensures var head := h.ToBytes(n);
            |head| == RH_LENGTH && head[3..11] == h.Number() && head[..3] == [h.ctype] + PutBE(h.version, 2)
  {
    hide PutBE;
  }

  lemma BodyIs(aes: Aes, role: Role, kb: KeyBlock, h: Header, payload: bytes)
    requires |payload| + 16 < 0x1_0000
    ensures var nonce, aad := WriteIv(kb, role) + h.Number() + [0, 0, 0, 0], AdditionalData(h, |payload|);
            && Ccm.Params(8, 3, nonce, aad, |payload|)
            && SealedBody(aes, role, kb, h, payload)
            == h.Number() + Ccm.Encrypt(Keyed(aes, WriteKey(kb, role)), 8, 3, nonce, aad, payload)
  {
    hide PutBE, Header.Number, Ccm.Encrypt, WriteKey, WriteIv, Keyed;
    assert Pow256(3) == 0x100_0000;
    assert Zeros(4) == [0, 0, 0, 0];
  }

  lemma RecordIsSplit(head: bytes, body: bytes)
    requires |head| == RH_LENGTH && |body| >= 8
    ensures var r := head + body;
            && r[3..11] == head[3..11] && r[..3] == head[..3]
            && r[RH_LENGTH..RH_LENGTH + 8] == body[..8] && r[RH_LENGTH + 8..] == body[8..]
  {
  }

  /** Equal strings that are split at the same place have equal parts. */
  lemma SameParts(a: bytes, x: bytes, b: bytes, y: bytes)
    requires a + x == b + y && |a| == |b|
    ensures a == b && x == y
  {
    assert a == (a + x)[..|a|] && b == (b + y)[..|b|] && x == (a + x)[|a|..] && y == (b + y)[|b|..];
  }

  lemma NumberInjective(g: Header, h: Header)
    requires g.Fits() && h.Fits() && g.Number() == h.Number()
    ensures g.epoch == h.epoch && g.seqnum == h.seqnum
  {
    assert Pow256(2) == 0x1_0000 && Pow256(6) == 0x1_0000_0000_0000;
    GetPutBE(g.epoch, 2); GetPutBE(h.epoch, 2); GetPutBE(g.seqnum, 6); GetPutBE(h.seqnum, 6);
    hide PutBE, GetBE;
    SameParts(PutBE(g.epoch, 2), PutBE(g.seqnum, 6), PutBE(h.epoch, 2), PutBE(h.seqnum, 6));
  }

  /** Under one key no two records have the same nonce unless they have the same epoch and number. */
  lemma NonceInjective(iv: bytes, g: Header, h: Header)
    requires |iv| == 4 && g.Fits() && h.Fits() && Nonce(iv, g.Number()) == Nonce(iv, h.Number())
    ensures g.epoch == h.epoch && g.seqnum == h.seqnum
  {
    hide Header.Number, Header.Fits;
    SameParts(iv + g.Number(), Zeros(4), iv + h.Number(), Zeros(4));
    SameParts(iv, g.Number(), iv, h.Number());
    NumberInjective(g, h);
  }

  function SentHeader(number: (nat, nat)): Header { Header(CT_APPLICATION_DATA, DTLS_VERSION, number.0, number.1) }

  /** In every run no two records of a peer are sent under one nonce, as long as epoch and number do not wrap. */
  lemma NonceNeverReused(env: Engine.Env, actions: seq<Session.Action>, iv: bytes, i: nat, j: nat)
    requires Slots.EpochHasRoom(env, actions) && |iv| == 4
    requires var c := Session.Run(env, actions);
             c.peer.Some? && i < j < |Engine.P(c).sent|
             && SentHeader(Engine.P(c).sent[i]).Fits() && SentHeader(Engine.P(c).sent[j]).Fits()
    ensures var sent := Engine.P(Session.Run(env, actions)).sent;
            Nonce(iv, SentHeader(sent[i]).Number()) != Nonce(iv, SentHeader(sent[j]).Number())
  {
    Slots.SlotsInEveryRun(env, actions);
    hide Session.Run, Slots.EpochHasRoom, Nonce, Header.Number;
    var sent := Engine.P(Session.Run(env, actions)).sent;
    assert Slots.Before(sent[i], sent[j]);
    if Nonce(iv, SentHeader(sent[i]).Number()) == Nonce(iv, SentHeader(sent[j]).Number()) {
      NonceInjective(iv, SentHeader(sent[i]), SentHeader(sent[j]));
    }
  }

  /** The additional data tells type, version, epoch, number and length apart. */
  lemma AdditionalDataInjective(g: Header, m: nat, h: Header, n: nat)
    requires g.Fits() && h.Fits() && m < 0x1_0000 && n < 0x1_0000
    requires AdditionalData(g, m) == AdditionalData(h, n)
    ensures g == h && m == n
  {
    assert Pow256(2) == 0x1_0000;
    GetPutBE(g.version, 2); GetPutBE(h.version, 2); GetPutBE(m, 2); GetPutBE(n, 2);
    hide PutBE, GetBE, Header.Number;
    var a, b := g.Number() + [g.ctype], h.Number() + [h.ctype];
    SameParts(a + PutBE(g.version, 2), PutBE(m, 2), b + PutBE(h.version, 2), PutBE(n, 2));
    SameParts(a, PutBE(g.version, 2), b, PutBE(h.version, 2));
    SameParts(g.Number(), [g.ctype], h.Number(), [h.ctype]);
    NumberInjective(g, h);
  }

  // ----- CCM: RFC 3610 -----

  /** The first block tells apart nonces, lengths, and whether there is additional data. */
  lemma FirstBlockInjective(M: nat, L: nat, nonce: bytes, la: nat, lm: nat, nonce': bytes, la': nat, lm': nat)
    requires 2 <= M <= 16 && 1 <= L <= 8 && |nonce| == |nonce'| == 15 - L && lm < Pow256(L) && lm' < Pow256(L)
    requires Ccm.B0(M, L, nonce, la, lm) == Ccm.B0(M, L, nonce', la', lm')
    ensures nonce == nonce' && lm == lm' && (la > 0 <==> la' > 0)
  {
    var a, b := Ccm.B0(M, L, nonce, la, lm), Ccm.B0(M, L, nonce', la', lm');
    GetPutBE(lm, L); GetPutBE(lm', L);
    hide PutBE, GetBE, Pow256;
    assert a[1..16 - L] == nonce[..15 - L] == nonce && b[1..16 - L] == nonce'[..15 - L] == nonce';
    assert a[16 - L..] == PutBE(lm, L) && b[16 - L..] == PutBE(lm', L);
    assert a[0] == b[0];
  }

  /** No counter block is the first block of any message, and none is another. */
  lemma CounterBlocksApart(M: nat, L: nat, nonce: bytes, i: nat, nonce': bytes, la: nat, lm: nat, j: nat)
    requires 4 <= M <= 16 && 1 <= L <= 8 && |nonce| == |nonce'| == 15 - L && i < Pow256(L) && j < Pow256(L)
    ensures Ccm.CtrBlock(L, nonce, i) != Ccm.B0(M, L, nonce', la, lm)
    ensures Ccm.CtrBlock(L, nonce, i) == Ccm.CtrBlock(L, nonce', j) <==> nonce == nonce' && i == j
  {
    var a, b := Ccm.CtrBlock(L, nonce, i), Ccm.CtrBlock(L, nonce', j);
    GetPutBE(i, L); GetPutBE(j, L);
    hide PutBE, GetBE, Pow256;
    assert a[0] == L - 1 && Ccm.B0(M, L, nonce', la, lm)[0] == Ccm.Flags(la, M, L);
    assert a[1..16 - L] == nonce[..15 - L] == nonce && b[1..16 - L] == nonce'[..15 - L] == nonce';
    assert a[16 - L..] == PutBE(i, L) && b[16 - L..] == PutBE(j, L);
  }

  /** The encoded length of additional data says where it ends. */
  lemma LengthPrefixReads(la: nat, rest: bytes)
    requires la < 0x1_0000_0000_0000_0000
    ensures var s := Ccm.LengthPrefix(la) + rest;
            && |s| >= 2
            && (la < 0xFF00 <==> s[..2] != [0xFF, 0xFE] && s[..2] != [0xFF, 0xFF])
            && (la < 0xFF00 ==> GetBE(s[..2]) == la)
            && (0xFF00 <= la < 0x1_0000_0000 <==> s[..2] == [0xFF, 0xFE])
            && (s[..2] == [0xFF, 0xFE] ==> GetBE(s[2..6]) == la)
            && (s[..2] == [0xFF, 0xFF] ==> GetBE(s[2..10]) == la)
  {
    assert Pow256(2) == 0x1_0000 && Pow256(4) == 0x1_0000_0000 && Pow256(8) == 0x1_0000_0000_0000_0000;
    var s := Ccm.LengthPrefix(la) + rest;
    if la < 0xFF00 {
      GetPutBE(la, 2);
      assert s[..2] == PutBE(la, 2) == [la / 256 % 256, la % 256];
    } else if la < 0x1_0000_0000 {
      GetPutBE(la, 4);
      hide PutBE, GetBE;
      assert s[2..6] == PutBE(la, 4) && s[..2] == [0xFF, 0xFE];
    } else {
      GetPutBE(la, 8);
      hide PutBE, GetBE;
      assert s[2..10] == PutBE(la, 8) && s[..2] == [0xFF, 0xFF];
    }
  }

  lemma SamePrefix(a: nat, b: nat, x: bytes, y: bytes)
    requires a < 0x1_0000_0000_0000_0000 && b < 0x1_0000_0000_0000_0000
    requires Ccm.LengthPrefix(a) + x == Ccm.LengthPrefix(b) + y
    ensures a == b && x == y
  {
    LengthPrefixReads(a, x);
    LengthPrefixReads(b, y);
    hide GetBE, PutBE;
    var s := Ccm.LengthPrefix(a) + x;
    var n := |Ccm.LengthPrefix(a)|;
    assert x == s[n..] && y == s[n..];
  }

  /** What is fed to CBC-MAC for a message. */
  function MacInput(M: nat, L: nat, nonce: bytes, aad: bytes, m: bytes): (r: bytes)
    requires Ccm.Params(M, L, nonce, aad, |m|)
    ensures r != [] && |r| % 16 == 0
  {
    var b0: Ccm.Block := Ccm.B0(M, L, nonce, |aad|, |m|);
    var a, p := Ccm.AuthBlocks(aad), Ccm.Pad(m);
    WholeBlocks(b0, a, p);
    b0 + (a + p)
  }

  lemma WholeBlocks(b0: Ccm.Block, a: bytes, p: bytes)
    requires |a| % 16 == 0 && |p| % 16 == 0
    ensures |b0 + (a + p)| % 16 == 0
  {
    assert |b0 + (a + p)| == 16 + |a| + |p|;
  }

  /** CBC-MAC of whole blocks: X_1 = E(B_0), X_(i+1) = E(X_i XOR B_i). */
  function CbcMac(E: Ccm.BlockFn, blocks: bytes): Ccm.Block
    requires |blocks| % 16 == 0 && blocks != []
  {
    if |blocks| == 16 then E(blocks)
    else E(XorSeq(CbcMac(E, blocks[..|blocks| - 16]), blocks[|blocks| - 16..]))
  }

  lemma {:induction false} CbcIsCbcMac(E: Ccm.BlockFn, b0: Ccm.Block, rest: bytes)
    requires |rest| % 16 == 0
    ensures |b0 + rest| % 16 == 0 && Ccm.Cbc(E, E(b0), rest) == CbcMac(E, b0 + rest)
    decreases |rest|
  {
    hide XorSeq;
    if rest == [] {
      assert b0 + rest == b0;
    } else {
      var k := |rest| - 16;
      var front, last := rest[..k], rest[k..];
      CbcIsCbcMac(E, b0, front);
      LastBlock(b0, rest);
      assert front + last == rest;
      Ccm.CbcStep(E, E(b0), front, last);
    }
  }

  lemma LastBlock(b0: bytes, rest: bytes)
    requires |rest| >= 16
    ensures var s := b0 + rest; s[..|s| - 16] == b0 + rest[..|rest| - 16] && s[|s| - 16..] == rest[|rest| - 16..]
  {
  }

  /** What the tag is made of is the CBC-MAC of that input. */
  lemma MacBlockIsCbcMac(E: Ccm.BlockFn, M: nat, L: nat, nonce: bytes, aad: bytes, m: bytes)
    requires Ccm.Params(M, L, nonce, aad, |m|)
    ensures var s := MacInput(M, L, nonce, aad, m);
            Ccm.MacBlock(E, M, L, nonce, aad, m) == CbcMac(E, s)
  {
    hide Ccm.B0, Ccm.AuthBlocks, Ccm.Pad, Ccm.Cbc, CbcMac;
    var b0: Ccm.Block := Ccm.B0(M, L, nonce, |aad|, |m|);
    Ccm.CbcAppend(E, E(b0), Ccm.AuthBlocks(aad), Ccm.Pad(m));
    CbcIsCbcMac(E, b0, Ccm.AuthBlocks(aad) + Ccm.Pad(m));
  }

  /** No two messages, with nonce and additional data, are the same input to CBC-MAC. */
  lemma MacInputInjective(M: nat, L: nat, nonce: bytes, aad: bytes, m: bytes, nonce': bytes, aad': bytes, m': bytes)
    requires Ccm.Params(M, L, nonce, aad, |m|) && Ccm.Params(M, L, nonce', aad', |m'|)
    requires |nonce| == |nonce'| == 15 - L
    requires MacInput(M, L, nonce, aad, m) == MacInput(M, L, nonce', aad', m')
    ensures nonce == nonce' && aad == aad' && m == m'
  {
    var b, b' := Ccm.B0(M, L, nonce, |aad|, |m|), Ccm.B0(M, L, nonce', |aad'|, |m'|);
    hide Ccm.B0, Ccm.LengthPrefix, Ccm.AuthBlocks, Ccm.Padding, PutBE, Pow256;
    SameParts(b, Ccm.AuthBlocks(aad) + Ccm.Pad(m), b', Ccm.AuthBlocks(aad') + Ccm.Pad(m'));
    FirstBlockInjective(M, L, nonce, |aad|, |m|, nonce', |aad'|, |m'|);
    SameData(aad, aad', Ccm.Pad(m), Ccm.Pad(m'));
    SameParts(m, Ccm.Padding(|m|), m', Ccm.Padding(|m'|));
  }

  lemma SameData(a: bytes, b: bytes, x: bytes, y: bytes)
    requires |a| < 0x1_0000_0000_0000_0000 && |b| < 0x1_0000_0000_0000_0000 && (a == [] <==> b == [])
    requires Ccm.AuthBlocks(a) + x == Ccm.AuthBlocks(b) + y
    ensures a == b && x == y
  {
    hide Ccm.LengthPrefix, Ccm.Padding;
    if a == [] {
      assert [] + x == x && [] + y == y;
    } else {
      DataFirst(a, x);
      DataFirst(b, y);
      hide Ccm.AuthBlocks;
      var u, v := Ccm.Padding(|Ccm.LengthPrefix(|a|) + a|), Ccm.Padding(|Ccm.LengthPrefix(|b|) + b|);
      SamePrefix(|a|, |b|, a + (u + x), b + (v + y));
      SameParts(a, u + x, b, v + y);
      SameParts(u, x, v, y);
    }
  }

  lemma DataFirst(a: bytes, x: bytes)
    requires a != []
    ensures var p := Ccm.LengthPrefix(|a|); Ccm.AuthBlocks(a) + x == p + (a + (Ccm.Padding(|p + a|) + x))
  {
    hide Ccm.LengthPrefix, Ccm.Padding;
  }

  /** Packet vector 1 of RFC 3610, section 8: its first block, first counter block and block of additional data. */
  lemma PacketVectorOne(nonce: bytes)
    requires nonce == [0x00, 0x00, 0x00, 0x03, 0x02, 0x01, 0x00, 0xA0, 0xA1, 0xA2, 0xA3, 0xA4, 0xA5]
    ensures Ccm.B0(8, 2, nonce, 8, 23) == [0x59] + nonce + [0x00, 0x17]
    ensures Ccm.CtrBlock(2, nonce, 1) == [0x01] + nonce + [0x00, 0x01]
  {
    assert PutBE(23, 2) == [0, 23] && PutBE(1, 2) == [0, 1];
    assert nonce[..13] == nonce;
  }

  lemma PacketVectorOneData(aad: bytes)
    requires |aad| == 8
    ensures Ccm.AuthBlocks(aad) == [0, 8] + aad + [0, 0, 0, 0, 0, 0]
  {
    assert PutBE(8, 2) == [0, 8];
    assert Zeros(6) == [0, 0, 0, 0, 0, 0];
  }

  /** The ciphertext, and behind it the tag. */
  lemma EncryptParts(E: Ccm.BlockFn, M: nat, L: nat, nonce: bytes, aad: bytes, m: bytes)
    requires Ccm.Params(M, L, nonce, aad, |m|)
    ensures var c := Ccm.Encrypt(E, M, L, nonce, aad, m);
            c[..|m|] == Ccm.Crypt(E, L, nonce, m) && c[|m|..] == Ccm.Tag(E, M, L, nonce, aad, m)
  {
    hide Ccm.Crypt, Ccm.Tag, Pow256;
  }

  /** Counter mode takes the keystream from counter 1 on. */
  lemma CiphertextByte(E: Ccm.BlockFn, L: nat, nonce: bytes, m: bytes, k: nat)
    requires 1 <= L <= 8 && |nonce| >= 15 - L && k < |m|
    ensures Ccm.Crypt(E, L, nonce, m)[k] == Xor(m[k], E(Ccm.CtrBlock(L, nonce, k / 16 + 1))[k % 16])
  {
    hide Xor, Ccm.CtrBlock;
  }

  /** The tag is the beginning of the CBC-MAC, masked with the block of counter 0. */
  lemma TagByte(E: Ccm.BlockFn, M: nat, L: nat, nonce: bytes, aad: bytes, m: bytes, i: nat)
    requires Ccm.Params(M, L, nonce, aad, |m|) && i < M
    ensures Ccm.Tag(E, M, L, nonce, aad, m)[i]
         == Xor(CbcMac(E, MacInput(M, L, nonce, aad, m))[i], E(Ccm.CtrBlock(L, nonce, 0))[i])
  {
    hide Xor, MacInput, Ccm.Tag, Ccm.MacBlock, CbcMac, Ccm.CtrBlock, XorSeq, Pow256, Ccm.Params;
    TagIs(E, M, L, nonce, aad, m);
    MacBlockIsCbcMac(E, M, L, nonce, aad, m);
    XorFirst(Ccm.MacBlock(E, M, L, nonce, aad, m), E(Ccm.CtrBlock(L, nonce, 0)), M, i);
  }

  lemma TagIs(E: Ccm.BlockFn, M: nat, L: nat, nonce: bytes, aad: bytes, m: bytes)
    requires Ccm.Params(M, L, nonce, aad, |m|)
    ensures M <= 16 && 1 <= L <= 8 && |nonce| >= 15 - L
            && Ccm.Tag(E, M, L, nonce, aad, m)
               == XorSeq(Ccm.MacBlock(E, M, L, nonce, aad, m), E(Ccm.CtrBlock(L, nonce, 0)))[..M]
  {
    hide Xor, XorSeq, Ccm.MacBlock, Ccm.CtrBlock, Pow256;
  }

  lemma XorFirst(x: Ccm.Block, y: Ccm.Block, n: nat, i: nat)
    requires i < n <= 16
    ensures XorSeq(x, y)[..n][i] == Xor(x[i], y[i])
  {
    hide Xor;
  }

  // ----- HMAC and the PRF: section 2 of RFC 2104, sections 5, 6.3, 7.4.9 and 8.1 of RFC 5246 -----

  predicate IsAscii(s: string) { forall i :: 0 <= i < |s| ==> s[i] as int < 128 }

  function Ascii(s: string): bytes
    requires IsAscii(s)
  {
    seq(|s|, i requires 0 <= i < |s| => s[i] as int)
  }

  lemma LabelsAre()
    ensures MasterLabel() == Ascii("master secret") && KeyLabel() == Ascii("key expansion")
    ensures SideLabel(Client) + FinishedLabel() == Ascii("client finished")
    ensures SideLabel(Server) + FinishedLabel() == Ascii("server finished")
  {
  }

  /** HMAC with the pads written out: the inner one is 0x36 repeated, the outer one 0x5C. */
  lemma HmacIs(H: Hash, key: bytes, text: bytes, inner: bytes, outer: bytes)
    requires |inner| == |outer| == 64
    requires forall i :: 0 <= i < 64 ==>
               var k := if |key| > 64 then H(key) else key;
               var b := if i < |k| then k[i] else 0;
               inner[i] == Xor(b, 0x36) && outer[i] == Xor(b, 0x5C)
    ensures Hmac(H, key, text) == H(outer + H(inner + text))
  {
    hide Xor;
    assert inner == XorAll(PaddedKey(H, key), 0x36);
    assert outer == XorAll(PaddedKey(H, key), 0x5C);
  }

  /** A(i) of section 5, with A(0) the seed. */
  function AOf(H: Hash, secret: bytes, seed: bytes, i: nat): bytes
  {
    if i == 0 then seed else Hmac(H, secret, AOf(H, secret, seed, i - 1))
  }

  /** Byte k of P_hash lies in HMAC(secret, A(k / 32 + 1) + seed). */
  lemma PHashByte(H: Hash, secret: bytes, seed: bytes, len: nat, k: nat)
    requires k < len
    ensures PHash(H, secret, seed, len)[k] == Hmac(H, secret, AOf(H, secret, seed, k / 32 + 1) + seed)[k % 32]
  {
    hide Hmac;
    var n := k / 32;
    AIs(H, secret, seed, n + 1);
    PHashPrefix(H, secret, seed, k + 1, len);
    PHashOf(H, secret, seed, k + 1, n + 1);
    hide PHash;
    assert PHash(H, secret, seed, len)[..k + 1][k] == PHash(H, secret, seed, len)[k];
    assert PBlocks(H, secret, seed, n + 1)[k] == Hmac(H, secret, A(H, secret, seed, n + 1) + seed)[k - 32 * n];
  }

  lemma {:induction false} AIs(H: Hash, secret: bytes, seed: bytes, i: nat)
    ensures A(H, secret, seed, i) == AOf(H, secret, seed, i)
    decreases i
  {
    hide Hmac;
    if i > 0 {
      AIs(H, secret, seed, i - 1);
    }
  }

  /** Which secret and which randoms in which order: client before server for the master secret, after it for the keys. */
  lemma KeysAre(H: Hash, psk: bytes, client: bytes, server: bytes)
    ensures PreMaster(psk) == PutBE(|psk|, 2) + Zeros(|psk|) + PutBE(|psk|, 2) + psk
    ensures MasterSecret(H, psk, client, server)
         == PHash(H, PreMaster(psk), Ascii("master secret") + client + server, 48)
    ensures KeyBlockOf(H, psk, client, server)
         == PHash(H, MasterSecret(H, psk, client, server), Ascii("key expansion") + server + client, 40)
  {
    LabelsAre();
    hide PHash, MasterLabel, KeyLabel, Ascii, PutBE;
  }

  /** What is in a Finished: twelve bytes over the hash of all messages, under the label of its sender. */
  lemma VerifyDataIs(H: Hash, master: bytes, transcript: bytes)
    ensures FinishedData(H, master, Client, transcript) == PHash(H, master, Ascii("client finished") + H(transcript), 12)
    ensures FinishedData(H, master, Server, transcript) == PHash(H, master, Ascii("server finished") + H(transcript), 12)
  {
    LabelsAre();
    hide PHash, SideLabel, FinishedLabel, Ascii;
  }
}
