/**
 * What becomes of a sealed Hello: dtls_send_multi writes the DTLS 1.0 version
 * over it after it was sealed, so the tag is checked against a version that it
 * was not made for (dtls.c:1590-1596).
 */
module Relabel {
  import opened Bytes
  import opened Record
  import Ccm

  /** The encrypted tag of a sealed record. */
  function RecordTag(aes: Aes, role: Role, kb: KeyBlock, h: Header, payload: bytes): bytes
    requires |payload| < 0x100_0000
  {
    assert Pow256(3) == 0x100_0000;
    Ccm.Tag(Keyed(aes, WriteKey(kb, role)), MAC_LENGTH, L_BYTES,
            Nonce(WriteIv(kb, role), h.Number()), AdditionalData(h, |payload|), payload)
  }

  function Older(h: Header): Header { h.(version := DTLS10_VERSION) }

  /** The tags of the record and of the same record with the older version. */
  predicate SameTags(aes: Aes, role: Role, kb: KeyBlock, h: Header, payload: bytes)
    requires |payload| < 0x100_0000
  {
    RecordTag(aes, role, kb, Older(h), payload) == RecordTag(aes, role, kb, h, payload)
  }

  lemma SameBodies(aes: Aes, role: Role, kb: KeyBlock, h: Header, payload: bytes)
    requires |payload| < 0x100_0000
    ensures SealedBody(aes, role, kb, Older(h), payload) == SealedBody(aes, role, kb, h, payload)
       <==> SameTags(aes, role, kb, h, payload)
  {
    var E, nonce := Keyed(aes, WriteKey(kb, role)), Nonce(WriteIv(kb, role), h.Number());
    assert Pow256(3) == 0x100_0000;
    var c := Ccm.Crypt(E, L_BYTES, nonce, payload);
    var t, t' := RecordTag(aes, role, kb, h, payload), RecordTag(aes, role, kb, Older(h), payload);
    hide Ccm.Crypt, Ccm.Tag, Header.Number, Nonce, AdditionalData, WriteKey, WriteIv, Keyed;
    SameEnds(h.Number(), c, t, t');
  }

  lemma SameEnds(n: bytes, c: bytes, t: bytes, t': bytes)
    ensures n + (c + t') == n + (c + t) <==> t' == t
  {
    assert (n + (c + t))[|n| + |c|..] == t && (n + (c + t'))[|n| + |c|..] == t';
  }

  /**
   * A relabelled sealed record opens, to the payload, exactly if its tag is also
   * the tag for the older version; otherwise it is rejected.
   */
  lemma RelabelledOpens(aes: Aes, role: Role, kb: KeyBlock, h: Header, payload: bytes)
    requires h.Fits() && |payload| + 16 < 0x1_0000
    ensures var r := Relabelled(SealedRecord(aes, role, kb, h, payload));
            && |r| == RH_LENGTH + 16 + |payload| && ReadHeader(r) == Older(h)
            && Open(aes, role.Other(), PskCcm8, kb, r)
            == if SameTags(aes, role, kb, h, payload) then Cleartext(payload) else Rejected
  {
    var n, body := 8 + |payload| + MAC_LENGTH, SealedBody(aes, role, kb, h, payload);
    var r := Relabelled(SealedRecord(aes, role, kb, h, payload));
    RelabelledHeader(h, n, body);
    HeaderReadsBack(Older(h), n, body);
    SameBodies(aes, role, kb, h, payload);
    SealedUnder(aes, role, kb, h, payload);
    hide SealedBody, Header.ToBytes, ReadHeader, BodyUnder, Relabelled, OpenBody, SameTags, Header.Number;
    assert (Older(h).ToBytes(n) + body)[RH_LENGTH..] == body;
    BodyOpensExactly(aes, role.Other(), kb, Older(h), body, payload);
    OnlyThePayload(aes, role, kb, h, payload);
  }

  lemma SealedUnder(aes: Aes, role: Role, kb: KeyBlock, h: Header, payload: bytes)
    requires |payload| < 0x100_0000
    ensures SealedBody(aes, role, kb, h, payload)[..8] == h.Number() == Older(h).Number()
    ensures SealedBody(aes, role, kb, Older(h), payload) == BodyUnder(aes, role, kb, Older(h), h.Number(), payload)
  {
  }

  /** What is recovered does not depend on the additional data. */
  lemma OnlyThePayload(aes: Aes, role: Role, kb: KeyBlock, h: Header, payload: bytes)
    requires |payload| + 16 < 0x1_0000
    ensures var got := OpenBody(aes, role.Other(), kb, Older(h), SealedBody(aes, role, kb, h, payload));
            got.Cleartext? ==> got.data == payload
  {
    var E, nonce := Keyed(aes, WriteKey(kb, role)), Nonce(WriteIv(kb, role), h.Number());
    var aad := AdditionalData(h, |payload|);
    assert Pow256(3) == 0x100_0000;
    Ccm.DecryptsWhatWasEncrypted(E, MAC_LENGTH, L_BYTES, nonce, aad, payload);
    hide Ccm.Encrypt, Ccm.Recovered, Ccm.Accepted, Header.Number, Nonce, AdditionalData, WriteKey, WriteIv, Keyed;
    var body := SealedBody(aes, role, kb, h, payload);
    assert body[..8] == h.Number() && body[8..] == Ccm.Encrypt(E, MAC_LENGTH, L_BYTES, nonce, aad, payload);
  }

  // ----- both happen -----

  /** A block function under which every output is made of one byte of the input. */
  function Spread(key: bytes, b: Ccm.Block): Ccm.Block { seq(16, _ => b[12]) }

  /** A block function that ignores its input. */
  function Flat(key: bytes, b: Ccm.Block): Ccm.Block { Zeros(16) }

  ghost predicate Even(X: Ccm.Block, v: byte) { forall i :: 0 <= i < 16 ==> X[i] == v }

  lemma XorDiffers(x: byte, y: byte, b: byte)
    ensures Xor(x, b) == Xor(y, b) ==> x == y
  {
    XorCancels(x, b);
    XorCancels(y, b);
  }

  lemma XorDiffersRight(a: byte, x: byte, y: byte)
    ensures Xor(a, x) == Xor(a, y) ==> x == y
  {
    XorNatCommutes(a, x);
    XorNatCommutes(a, y);
    XorDiffers(x, y, a);
  }

  /** Two states that differ everywhere still do after any number of blocks. */
  lemma {:induction false} SpreadStaysApart(E: Ccm.BlockFn, key: bytes, X: Ccm.Block, Y: Ccm.Block, v: byte, w: byte, bs: bytes)
    returns (v': byte, w': byte)
    requires (forall b :: E(b) == Spread(key, b)) && Even(X, v) && Even(Y, w) && v != w && |bs| % Ccm.BLOCK == 0
    ensures v' != w' && Even(Ccm.Cbc(E, X, bs), v') && Even(Ccm.Cbc(E, Y, bs), w')
    decreases |bs|
  {
    if bs == [] {
      v', w' := v, w;
    } else {
      var b := bs[..Ccm.BLOCK];
      XorDiffers(v, w, b[12]);
      var X1, Y1 := E(XorSeq(X, b)), E(XorSeq(Y, b));
      assert Even(X1, Xor(v, b[12])) && Even(Y1, Xor(w, b[12]));
      v', w' := SpreadStaysApart(E, key, X1, Y1, Xor(v, b[12]), Xor(w, b[12]), bs[Ccm.BLOCK..]);
    }
  }

  lemma OneBlock(E: Ccm.BlockFn, X: Ccm.Block, b: bytes)
    requires |b| == Ccm.BLOCK
    ensures Ccm.Cbc(E, X, b) == E(XorSeq(X, b))
  {
    assert b[..Ccm.BLOCK] == b && b[Ccm.BLOCK..] == [];
  }

  /** The additional data of a record fill one block, whose byte 12 belongs to the version. */
  lemma VersionByte(h: Header, n: nat)
    ensures var b := Ccm.AuthBlocks(AdditionalData(h, n));
            |AdditionalData(h, n)| == 13 && |b| == Ccm.BLOCK && b[12] == PutBE(h.version, 2)[1]
  {
    hide PutBE;
    var aad := AdditionalData(h, n);
    assert aad[10] == PutBE(h.version, 2)[1];
    assert Ccm.LengthPrefix(13) == PutBE(13, 2);
    assert (PutBE(13, 2) + aad)[12] == aad[10];
  }

  /** Additional data that differ in that byte have different tags under Spread. */
  lemma SpreadTags(E: Ccm.BlockFn, key: bytes, nonce: bytes, aad: bytes, aad': bytes, m: bytes)
    requires (forall b :: E(b) == Spread(key, b)) && |aad| == |aad'| == 13
    requires Ccm.Params(MAC_LENGTH, L_BYTES, nonce, aad, |m|)
    requires |Ccm.AuthBlocks(aad)| == |Ccm.AuthBlocks(aad')| == Ccm.BLOCK
    requires Ccm.AuthBlocks(aad)[12] != Ccm.AuthBlocks(aad')[12]
    ensures Ccm.Tag(E, MAC_LENGTH, L_BYTES, nonce, aad, m) != Ccm.Tag(E, MAC_LENGTH, L_BYTES, nonce, aad', m)
  {
    hide Xor, Ccm.Cbc, Ccm.Pad, Ccm.AuthBlocks, Ccm.B0, Ccm.CtrBlock;
    var start := E(Ccm.B0(MAC_LENGTH, L_BYTES, nonce, 13, |m|));
    var b, b' := Ccm.AuthBlocks(aad), Ccm.AuthBlocks(aad');
    OneBlock(E, start, b);
    OneBlock(E, start, b');
    XorDiffersRight(start[12], b[12], b'[12]);
    var v, w := SpreadStaysApart(E, key, E(XorSeq(start, b)), E(XorSeq(start, b')),
                                 Xor(start[12], b[12]), Xor(start[12], b'[12]), Ccm.Pad(m));
    var S := E(Ccm.CtrBlock(L_BYTES, nonce, 0));
    XorDiffers(v, w, S[0]);
    assert Ccm.Tag(E, MAC_LENGTH, L_BYTES, nonce, aad, m)[0] == Xor(v, S[0]);
    assert Ccm.Tag(E, MAC_LENGTH, L_BYTES, nonce, aad', m)[0] == Xor(w, S[0]);
  }

  /** Under Spread no sealed record opens after relabelling, whatever it carries. */
  lemma SpreadRejects(role: Role, kb: KeyBlock, h: Header, payload: bytes)
    requires h.version == DTLS_VERSION && |payload| < 0x100_0000
    ensures !SameTags(Spread, role, kb, h, payload)
  {
    var n, key := |payload|, WriteKey(kb, role);
    var E, nonce := Keyed(Spread, key), Nonce(WriteIv(kb, role), h.Number());
    assert Pow256(3) == 0x100_0000;
    VersionByte(h, n);
    VersionByte(Older(h), n);
    assert PutBE(DTLS10_VERSION, 2)[1] == 0xff && PutBE(DTLS_VERSION, 2)[1] == 0xfd;
    hide PutBE, AdditionalData, Nonce, Header.Number, Ccm.AuthBlocks, Ccm.Tag, WriteKey, WriteIv, Spread;
    SpreadTags(E, key, nonce, AdditionalData(h, n), AdditionalData(Older(h), n), payload);
  }

  lemma {:induction false} FlatForgets(E: Ccm.BlockFn, X: Ccm.Block, bs: bytes)
    requires (forall b :: E(b) == Zeros(16)) && |bs| % Ccm.BLOCK == 0 && bs != []
    ensures Ccm.Cbc(E, X, bs) == Zeros(16)
    decreases |bs|
  {
    if |bs| > Ccm.BLOCK {
      FlatForgets(E, E(XorSeq(X, bs[..Ccm.BLOCK])), bs[Ccm.BLOCK..]);
    } else {
      OneBlock(E, X, bs);
    }
  }

  /** Under Flat every one does: nothing is authenticated there. */
  lemma FlatAccepts(role: Role, kb: KeyBlock, h: Header, payload: bytes)
    requires |payload| < 0x100_0000
    ensures SameTags(Flat, role, kb, h, payload)
  {
    var n := |payload|;
    var E, nonce := Keyed(Flat, WriteKey(kb, role)), Nonce(WriteIv(kb, role), h.Number());
    assert Pow256(3) == 0x100_0000;
    VersionByte(h, n);
    VersionByte(Older(h), n);
    hide PutBE, AdditionalData, Nonce, Header.Number, Xor, Ccm.Cbc, Ccm.Pad, Ccm.AuthBlocks, WriteKey, WriteIv;
    var start := E(Ccm.B0(MAC_LENGTH, L_BYTES, nonce, 13, n));
    FlatForgets(E, start, Ccm.AuthBlocks(AdditionalData(h, n)));
    FlatForgets(E, start, Ccm.AuthBlocks(AdditionalData(Older(h), n)));
  }
}
