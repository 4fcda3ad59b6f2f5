/**
 * The DTLS record layer: sealing and opening records with
 * TLS_PSK_WITH_AES_128_CCM_8 (dtls_set_record_header, dtls_prepare_record,
 * decrypt_verify, is_record in dtls.c and the key block macros of crypto.h).
 *
 * AES is an arbitrary function of a key and a block.
 */
module Record {
  import opened Bytes
  import Ccm

  const RH_LENGTH := 13
  const MAC_LENGTH := 8           // M of TLS_PSK_WITH_AES_128_CCM_8
  const L_BYTES := 3              // max(2, 15 - 12)
  const DTLS_VERSION := 0xfefd
  const DTLS10_VERSION := 0xfeff
  const KEYBLOCK_LENGTH := 40

  const CT_CHANGE_CIPHER_SPEC: byte := 20
  const CT_ALERT: byte := 21
  const CT_HANDSHAKE: byte := 22
  const CT_APPLICATION_DATA: byte := 23

  datatype Role = Client | Server
  {
    function Other(): Role { if Client? then Server else Client }
  }

  type Aes = (bytes, Ccm.Block) -> Ccm.Block

  type KeyBlock = b: bytes | |b| == KEYBLOCK_LENGTH witness seq(KEYBLOCK_LENGTH, _ => 0)

  datatype Suite = NullSuite | PskCcm8

  // client_write_key, server_write_key, client_iv, server_iv
  function WriteKey(kb: KeyBlock, of: Role): bytes { if of.Client? then kb[..16] else kb[16..32] }
  function WriteIv(kb: KeyBlock, of: Role): bytes { if of.Client? then kb[32..36] else kb[36..40] }

  function Keyed(aes: Aes, key: bytes): Ccm.BlockFn { b => aes(key, b) }

  /** The parts of the record header that are chosen before the length is known. */
  datatype Header = Header(ctype: byte, version: nat, epoch: nat, seqnum: nat)
  {
    /** epoch and sequence number, as on the wire */
    function Number(): (r: bytes)
      ensures |r| == 8
    {
      PutBE(epoch, 2) + PutBE(seqnum, 6)
    }

    function ToBytes(length: nat): (r: bytes)
      ensures |r| == RH_LENGTH
    {
      [ctype] + PutBE(version, 2) + Number() + PutBE(length, 2)
    }

    predicate Fits() { version < 0x1_0000 && epoch < 0x1_0000 && seqnum < 0x1_0000_0000_0000 }
  }

  /** What the receiver reads from the first bytes of a packet. */
  function ReadHeader(packet: bytes): Header
    requires |packet| >= RH_LENGTH
  {
    Header(packet[0], GetBE(packet[1..3]), GetBE(packet[3..5]), GetBE(packet[5..11]))
  }

  lemma HeaderReadsBack(h: Header, length: nat, rest: bytes)
    requires h.Fits() && length < 0x1_0000
    ensures ReadHeader(h.ToBytes(length) + rest) == h
    ensures GetBE((h.ToBytes(length) + rest)[11..13]) == length
  {
    var p := h.ToBytes(length) + rest;
    assert Pow256(2) == 0x1_0000 && Pow256(6) == 0x1_0000_0000_0000;
    GetPutBE(h.version, 2); GetPutBE(h.epoch, 2); GetPutBE(h.seqnum, 6); GetPutBE(length, 2);
    hide PutBE, GetBE;
    assert p[1..3] == PutBE(h.version, 2);
    assert p[3..5] == PutBE(h.epoch, 2);
    assert p[5..11] == PutBE(h.seqnum, 6);
    assert p[11..13] == PutBE(length, 2);
  }

  // ----- section 3 of RFC 6655 and section 6.2.3.3 of RFC 5246 -----

  function Nonce(iv: bytes, number: bytes): bytes
    requires |iv| == 4 && |number| == 8
  {
    iv + number + Zeros(4)
  }

  function AdditionalData(h: Header, length: nat): bytes
  {
    h.Number() + [h.ctype] + PutBE(h.version, 2) + PutBE(length, 2)
  }

  /** The record that carries payload in the clear. */
  function PlainRecord(h: Header, payload: bytes): bytes
  {
    h.ToBytes(|payload|) + payload
  }

  /** The explicit nonce, whatever it is, and the AEAD output under it. */
  function BodyUnder(aes: Aes, role: Role, kb: KeyBlock, h: Header, number: bytes, payload: bytes): (r: bytes)
    requires |payload| < 0x100_0000 && |number| == 8
    ensures |r| == 8 + |payload| + MAC_LENGTH
  {
    assert Pow256(3) == 0x100_0000;
    number + Ccm.Encrypt(Keyed(aes, WriteKey(kb, role)), MAC_LENGTH, L_BYTES,
                         Nonce(WriteIv(kb, role), number), AdditionalData(h, |payload|), payload)
  }

  /** What follows the header of a sealed record: the explicit nonce and the AEAD output. */
  function SealedBody(aes: Aes, role: Role, kb: KeyBlock, h: Header, payload: bytes): (r: bytes)
    requires |payload| < 0x100_0000
    ensures |r| == 8 + |payload| + MAC_LENGTH
  {
    BodyUnder(aes, role, kb, h, h.Number(), payload)
  }

  function SealedRecord(aes: Aes, role: Role, kb: KeyBlock, h: Header, payload: bytes): bytes
    requires |payload| < 0x100_0000
  {
    h.ToBytes(8 + |payload| + MAC_LENGTH) + SealedBody(aes, role, kb, h, payload)
  }

  /** is_record: the length of the record at the start of msg, or 0. */
  function IsRecord(msg: bytes): nat
  {
    if |msg| >= RH_LENGTH
       && (GetBE(msg[1..3]) == DTLS_VERSION || GetBE(msg[1..3]) == DTLS10_VERSION)
       && msg[0] != 0
       && RH_LENGTH + GetBE(msg[11..13]) <= |msg|
    then RH_LENGTH + GetBE(msg[11..13]) else 0
  }

  datatype Opened = Rejected | Cleartext(data: bytes)

  /** decrypt_verify on the header and the body of a sealed record. */
  function OpenBody(aes: Aes, role: Role, kb: KeyBlock, h: Header, body: bytes): Opened
    requires |body| <= 0xFFFF
  {
    if |body| < 16 then Rejected
    else
      var peer := role.Other();
      var E, nonce := Keyed(aes, WriteKey(kb, peer)), Nonce(WriteIv(kb, peer), body[..8]);
      var aad, c := AdditionalData(h, |body| - 16), body[8..];
      assert Pow256(3) == 0x100_0000;
      if Ccm.Accepted(E, MAC_LENGTH, L_BYTES, nonce, aad, c)
      then Cleartext(Ccm.Recovered(E, MAC_LENGTH, L_BYTES, nonce, c)) else Rejected
  }

  /** decrypt_verify under the given suite and key block. */
  function Open(aes: Aes, role: Role, suite: Suite, kb: KeyBlock, packet: bytes): Opened
    requires RH_LENGTH <= |packet| <= RH_LENGTH + 0xFFFF
  {
    if suite.NullSuite? then Cleartext(packet[RH_LENGTH..])
    else OpenBody(aes, role, kb, ReadHeader(packet), packet[RH_LENGTH..])
  }

  /**
   * A record sealed in one role opens in the other, under the same key block,
   * to exactly the payload; its header reads back; and it is recognised as one
   * record of its own length, whatever follows it in the datagram.
   */
  lemma SealedOpens(aes: Aes, role: Role, kb: KeyBlock, h: Header, payload: bytes, rest: bytes)
    requires h.Fits() && |payload| + 16 < 0x1_0000
    requires h.version == DTLS_VERSION || h.version == DTLS10_VERSION
    requires h.ctype != 0
    ensures var r := SealedRecord(aes, role, kb, h, payload);
            && IsRecord(r + rest) == |r|
            && ReadHeader(r) == h
            && Open(aes, role.Other(), PskCcm8, kb, r) == Cleartext(payload)
  {
    var n := 8 + |payload| + MAC_LENGTH;
    hide SealedBody, Header.ToBytes, GetBE, ReadHeader, OpenBody, IsRecord, Header.Fits;
    var body := SealedBody(aes, role, kb, h, payload);
    BodyOpens(aes, role, kb, h, payload);
    HeaderReadsBack(h, n, body);
    assert (h.ToBytes(n) + body)[RH_LENGTH..] == body;
    HeaderReadsBack(h, n, body + rest);
    assert (h.ToBytes(n) + body) + rest == h.ToBytes(n) + (body + rest);
    RecordLength(h.ToBytes(n) + (body + rest), h, n);
  }

  lemma RecordLength(msg: bytes, h: Header, n: nat)
    requires |msg| >= RH_LENGTH + n && ReadHeader(msg) == h && GetBE(msg[11..13]) == n
    requires (h.version == DTLS_VERSION || h.version == DTLS10_VERSION) && h.ctype != 0
    ensures IsRecord(msg) == RH_LENGTH + n
  {
    hide GetBE;
  }

  /** The fields that is_record looks at. */
  lemma RecordIs(msg: bytes, version: nat, n: nat)
    requires |msg| == RH_LENGTH + n && n < 0x1_0000 && msg[0] != 0 && msg[11..13] == PutBE(n, 2)
    requires msg[1..3] == PutBE(version, 2) && (version == DTLS_VERSION || version == DTLS10_VERSION)
    ensures IsRecord(msg) == |msg|
  {
    assert Pow256(2) == 0x1_0000;
    GetPutBE(version, 2); GetPutBE(n, 2);
    hide PutBE, GetBE;
  }

  /** Which datagrams begin with a record, byte by byte: a type, one of two versions, and no more than there is. */
  lemma RecordTakenExactly(msg: bytes)
    ensures IsRecord(msg) != 0 <==>
            |msg| >= 13 && msg[0] != 0 && msg[1] == 0xfe && (msg[2] == 0xfd || msg[2] == 0xff)
            && 13 + Word(msg[11], msg[12]) <= |msg|
    ensures IsRecord(msg) != 0 ==> IsRecord(msg) == 13 + Word(msg[11], msg[12])
  {
    if |msg| >= 13 {
      TwoBytes(msg, 1);
      TwoBytes(msg, 11);
    }
    hide GetBE;
  }

  lemma TwoBytes(s: bytes, i: nat)
    requires i + 2 <= |s|
    ensures GetBE(s[i..i + 2]) == Word(s[i], s[i + 1])
  {
    var t := s[i..i + 2];
    assert t[..1] == [s[i]];
    assert GetBE([s[i]]) == GetBE([s[i]][..0]) * 256 + s[i];
  }

  lemma HeaderFields(h: Header, n: nat, body: bytes)
    ensures var r := h.ToBytes(n) + body;
            |r| == RH_LENGTH + |body| && r[0] == h.ctype && r[1..3] == PutBE(h.version, 2) && r[11..13] == PutBE(n, 2)
  {
    hide PutBE;
  }

  lemma BareFields(ctype: byte, payload: bytes, behind: bytes)
    requires |behind| == 2
    ensures var r := BareRecord(ctype, payload, behind);
            |r| == RH_LENGTH + |payload| && r[0] == ctype && r[11..13] == PutBE(|payload|, 2)
  {
    hide PutBE;
  }

  lemma RelabelledFields(r: bytes)
    requires |r| >= RH_LENGTH
    ensures var s := Relabelled(r);
            |s| == |r| && s[0] == r[0] && s[1..3] == PutBE(DTLS10_VERSION, 2) && s[11..13] == r[11..13]
  {
    hide PutBE;
  }

  lemma BodyOpens(aes: Aes, role: Role, kb: KeyBlock, h: Header, payload: bytes)
    requires |payload| + 16 < 0x1_0000
    ensures OpenBody(aes, role.Other(), kb, h, SealedBody(aes, role, kb, h, payload)) == Cleartext(payload)
  {
    var body := SealedBody(aes, role, kb, h, payload);
    assert body[..8] == h.Number();
    hide OpenBody, BodyUnder;
    BodyOpensExactly(aes, role.Other(), kb, h, body, payload);
  }

  lemma BodyOpensExactly(aes: Aes, role: Role, kb: KeyBlock, h: Header, body: bytes, payload: bytes)
    requires 16 <= |body| <= 0xFFFF
    ensures OpenBody(aes, role, kb, h, body) == Cleartext(payload)
       <==> |payload| == |body| - 16 && body == BodyUnder(aes, role.Other(), kb, h, body[..8], payload)
  {
    var peer, n := role.Other(), |body| - 16;
    var E, nonce := Keyed(aes, WriteKey(kb, peer)), Nonce(WriteIv(kb, peer), body[..8]);
    var aad, c := AdditionalData(h, n), body[8..];
    assert Pow256(3) == 0x100_0000;
    hide Ccm.Encrypt, Ccm.Recovered, Header.Number, Nonce, AdditionalData, WriteKey, WriteIv, Keyed;
    assert body == body[..8] + c;
    if |payload| == n {
      Ccm.DecryptsWhatWasEncrypted(E, MAC_LENGTH, L_BYTES, nonce, aad, payload);
      var sealed := Ccm.Encrypt(E, MAC_LENGTH, L_BYTES, nonce, aad, payload);
      assert BodyUnder(aes, peer, kb, h, body[..8], payload)[8..] == sealed;
    }
  }

  /**
   * Which packets decrypt_verify accepts, of all there are: those that hold,
   * behind whatever explicit nonce they carry, the encryption under that nonce
   * and the rest of the header. Neither the number in the header nor its length
   * field has to agree.
   */
  lemma OpensExactly(aes: Aes, role: Role, kb: KeyBlock, packet: bytes, payload: bytes)
    requires RH_LENGTH <= |packet| <= RH_LENGTH + 0xFFFF
    ensures Open(aes, role, PskCcm8, kb, packet) == Cleartext(payload)
       <==> |packet| == RH_LENGTH + 16 + |payload|
            && var number := packet[RH_LENGTH..RH_LENGTH + 8];
               packet[RH_LENGTH..] == BodyUnder(aes, role.Other(), kb, ReadHeader(packet), number, payload)
  {
    var body := packet[RH_LENGTH..];
    if |body| >= 16 {
      hide ReadHeader, OpenBody, BodyUnder;
      assert body[..8] == packet[RH_LENGTH..RH_LENGTH + 8];
      BodyOpensExactly(aes, role, kb, ReadHeader(packet), body, payload);
    }
  }

  /** An accepted packet is a sealed record exactly if nonce and length field agree with the rest. */
  lemma SealedIfFieldsAgree(aes: Aes, role: Role, kb: KeyBlock, packet: bytes, payload: bytes)
    requires RH_LENGTH <= |packet| <= RH_LENGTH + 0xFFFF
    requires Open(aes, role, PskCcm8, kb, packet) == Cleartext(payload)
    ensures |packet| == RH_LENGTH + 16 + |payload|
    ensures packet == SealedRecord(aes, role.Other(), kb, ReadHeader(packet), payload)
       <==> packet[RH_LENGTH..RH_LENGTH + 8] == ReadHeader(packet).Number()
            && GetBE(packet[11..13]) == |packet| - RH_LENGTH
  {
    hide ReadHeader, Open, BodyUnder, Header.ToBytes, GetBE, Header.Number, Header.Fits;
    OpensExactly(aes, role, kb, packet, payload);
    var h, n := ReadHeader(packet), 8 + |payload| + MAC_LENGTH;
    var number, sealed := packet[RH_LENGTH..RH_LENGTH + 8], SealedBody(aes, role.Other(), kb, h, payload);
    HeaderWritesBack(packet);
    NumberFirst(aes, role.Other(), kb, h, h.Number(), payload);
    assert packet[RH_LENGTH..][..8] == number;
    if packet == h.ToBytes(n) + sealed {
      HeaderReadsBack(h, n, sealed);
      assert (h.ToBytes(n) + sealed)[RH_LENGTH..] == sealed;
    }
  }

  lemma NumberFirst(aes: Aes, role: Role, kb: KeyBlock, h: Header, number: bytes, payload: bytes)
    requires |payload| < 0x100_0000 && |number| == 8
    ensures BodyUnder(aes, role, kb, h, number, payload)[..8] == number
  {
  }

  /** Whatever explicit nonce and length field a packet has, under them it can be made to open. */
  lemma OpensDespiteItsFields(aes: Aes, role: Role, kb: KeyBlock, h: Header, length: nat, number: bytes, payload: bytes)
    requires h.Fits() && length < 0x1_0000 && |number| == 8 && |payload| + 16 < 0x1_0000
    ensures var packet := h.ToBytes(length) + BodyUnder(aes, role, kb, h, number, payload);
            && Open(aes, role.Other(), PskCcm8, kb, packet) == Cleartext(payload)
            && (packet == SealedRecord(aes, role, kb, h, payload)
                <==> number == h.Number() && length == 16 + |payload|)
  {
    hide ReadHeader, BodyUnder, Header.ToBytes, GetBE, Header.Number, Open, Header.Fits;
    var body := BodyUnder(aes, role, kb, h, number, payload);
    var packet := h.ToBytes(length) + body;
    HeaderReadsBack(h, length, body);
    NumberFirst(aes, role, kb, h, number, payload);
    assert packet[RH_LENGTH..] == body && packet[RH_LENGTH..RH_LENGTH + 8] == body[..8];
    OpensExactly(aes, role.Other(), kb, packet, payload);
    SealedIfFieldsAgree(aes, role.Other(), kb, packet, payload);
  }

  /**
   * Among the packets whose explicit nonce repeats the number in their header
   * and whose length field is right, decrypt_verify accepts exactly the records
   * the other role seals.
   */
  lemma OpensOnlySealed(aes: Aes, role: Role, kb: KeyBlock, packet: bytes, payload: bytes)
    requires RH_LENGTH + 16 <= |packet| <= RH_LENGTH + 0xFFFF
    requires packet[RH_LENGTH..RH_LENGTH + 8] == ReadHeader(packet).Number()
    requires GetBE(packet[11..13]) == |packet| - RH_LENGTH
    ensures Open(aes, role, PskCcm8, kb, packet) == Cleartext(payload)
       <==> |payload| < 0x100_0000 && packet == SealedRecord(aes, role.Other(), kb, ReadHeader(packet), payload)
  {
    OpensExactly(aes, role, kb, packet, payload);
    hide ReadHeader, Open, Header.ToBytes, BodyUnder, GetBE, Header.Number;
    if Open(aes, role, PskCcm8, kb, packet) == Cleartext(payload) {
      SealedIfFieldsAgree(aes, role, kb, packet, payload);
    } else if |payload| < 0x100_0000 {
      var h, n := ReadHeader(packet), 8 + |payload| + MAC_LENGTH;
      var sealed := SealedBody(aes, role.Other(), kb, h, payload);
      assert (h.ToBytes(n) + sealed)[RH_LENGTH..] == sealed;
    }
  }

  lemma HeaderWritesBack(packet: bytes)
    requires |packet| >= RH_LENGTH
    ensures packet == ReadHeader(packet).ToBytes(GetBE(packet[11..13])) + packet[RH_LENGTH..]
    ensures ReadHeader(packet).Fits()
  {
    hide PutBE, GetBE, Pow256;
    var v, e, n, l := packet[1..3], packet[3..5], packet[5..11], packet[11..13];
    Field2(v); Field2(e); Field6(n); Field2(l);
    assert packet == [packet[0]] + v + (e + n) + l + packet[RH_LENGTH..];
  }

  lemma Field2(s: bytes)
    requires |s| == 2
    ensures GetBE(s) < 0x1_0000 && PutBE(GetBE(s), 2) == s
  {
    PutGetBE(s);
    assert Pow256(2) == 0x1_0000;
  }

  lemma Field6(s: bytes)
    requires |s| == 6
    ensures GetBE(s) < 0x1_0000_0000_0000 && PutBE(GetBE(s), 6) == s
  {
    hide PutBE, GetBE;
    PutGetBE(s);
    assert Pow256(6) == 0x1_0000_0000_0000;
  }

  // ----- sending -----

  /** dtls_security_parameters_t, as far as sending needs it. */
  class SecurityParams {
    const epoch: nat
    const suite: Suite
    const keyBlock: KeyBlock
    var rseq: nat                 // 64 bits; only the low 48 are sent

    constructor (epoch: nat, suite: Suite, keyBlock: KeyBlock)
      ensures this.epoch == epoch && this.suite == suite && this.keyBlock == keyBlock && rseq == 0
    {
      this.epoch, this.suite, this.keyBlock, this.rseq := epoch, suite, keyBlock, 0;
    }
  }

  function Flatten(fragments: seq<bytes>): bytes
  {
    if fragments == [] then [] else Flatten(fragments[..|fragments| - 1]) + fragments[|fragments| - 1]
  }

  lemma {:induction false} FlattenPrefix(fragments: seq<bytes>, k: nat)
    requires k <= |fragments|
    ensures |Flatten(fragments[..k])| <= |Flatten(fragments)|
    decreases |fragments|
  {
    if k < |fragments| {
      FlattenPrefix(fragments[..|fragments| - 1], k);
      assert fragments[..|fragments| - 1][..k] == fragments[..k];
    } else {
      assert fragments[..k] == fragments;
    }
  }

  /** The capacity check, which leaves out the tag. */
  predicate Room(rlen: nat, overhead: nat, fragments: seq<bytes>)
  {
    fragments == [] || RH_LENGTH + overhead + |Flatten(fragments)| <= rlen
  }

  /** The nonce always lies inside the buffer, and so does the tag of what passes the check. */
  predicate TagFits(buffer: nat, room: nat, fragments: seq<bytes>)
  {
    && room <= buffer && RH_LENGTH + 8 <= buffer
    && (Room(room, 8, fragments) ==> RH_LENGTH + |Flatten(fragments)| + 16 <= buffer)
  }

  /**
   * The callers offer their whole buffer. The tag then lies inside it for all
   * lengths but the last eight that pass the check.
   */
  lemma TagFitsExactly(buffer: nat, fragments: seq<bytes>)
    requires fragments != [] && RH_LENGTH + 8 <= buffer
    ensures TagFits(buffer, buffer, fragments) <==>
            !(buffer - 8 < RH_LENGTH + 8 + |Flatten(fragments)| <= buffer)
    ensures exists fs :: fs != [] && Room(buffer, 8, fs) && !TagFits(buffer, buffer, fs)
  {
    var fs := [Zeros(buffer - RH_LENGTH - 8)];
    assert fs[..0] == [] && Flatten(fs) == [] + fs[0];
    assert Room(buffer, 8, fs) && !TagFits(buffer, buffer, fs);
  }

  /** memcpy of one more fragment behind those already copied */
  method AppendFragment(sendbuf: array<byte>, ghost was: bytes, at: nat, ghost copied: bytes, f: bytes, pos: nat)
    requires at + |copied| + |f| <= sendbuf.Length == |was| && pos == at + |copied|
    requires sendbuf[..] == Splice(was, at, copied)
    modifies sendbuf
    ensures sendbuf[..] == Splice(was, at, copied + f)
  {
    SpliceTwice(was, at, copied, f);
    ghost var before := sendbuf[..];
    Copy(sendbuf, pos, f);
    assert sendbuf[..] == Splice(before, pos, f);
  }

  lemma FlattenNext(fragments: seq<bytes>, i: nat)
    requires i < |fragments|
    ensures Flatten(fragments[..i + 1]) == Flatten(fragments[..i]) + fragments[i]
    ensures |Flatten(fragments[..i + 1])| <= |Flatten(fragments)|
  {
    assert fragments[..i + 1][..i] == fragments[..i];
    FlattenPrefix(fragments, i + 1);
  }

  /**
   * Copies the fragments behind each other from position at on, checking the
   * room before each one. The check always counts a whole record header.
   */
  method CopyFragments(fragments: seq<bytes>, sendbuf: array<byte>, at: nat, overhead: nat, rlen: nat)
    returns (res: int)
    requires rlen <= sendbuf.Length && RH_LENGTH + overhead <= sendbuf.Length && at <= RH_LENGTH + overhead
    modifies sendbuf
    ensures res == if Room(rlen, overhead, fragments) then overhead + |Flatten(fragments)| else -1
    ensures res >= 0 ==>
              && RH_LENGTH + res <= sendbuf.Length
              && sendbuf[..] == Splice(old(sendbuf[..]), at, Flatten(fragments))
  {
    ghost var was := sendbuf[..];
    res := overhead;
    assert Flatten(fragments[..0]) == [] && fragments[..|fragments|] == fragments;
    assert was == Splice(was, at, []);
    hide Flatten, Splice;
    for i := 0 to |fragments|
      invariant res == overhead + |Flatten(fragments[..i])| && RH_LENGTH + res <= sendbuf.Length
      invariant sendbuf[..] == Splice(was, at, Flatten(fragments[..i]))
      invariant i > 0 ==> RH_LENGTH + res <= rlen
    {
      FlattenNext(fragments, i);
      if rlen < res + RH_LENGTH + |fragments[i]| {
        return -1;
      }
      AppendFragment(sendbuf, was, at, Flatten(fragments[..i]), fragments[i], at + (res - overhead));
      res := res + |fragments[i]|;
    }
  }

  const ERR_INTERNAL := -(2 * 256 + 80)     // fatal, internal_error

  datatype Node = NoNode | Node(version: nat, epoch: nat, rseq: nat)

  /** The header dtls_set_record_header writes for a node of the send queue or under security parameters. */
  function ChosenHeader(ctype: byte, security: SecurityParams?, node: Node): Header
    requires security != null || node.Node?
    reads security
  {
    match node
    case Node(version, epoch, rseq) => Header(ctype, version, epoch, rseq)
    case NoNode => Header(ctype, DTLS_VERSION, security.epoch, security.rseq)
  }

  const BARE_LENGTH := 11

  /**
   * Without security parameters and node the header lacks two bytes, but the
   * length still goes to its usual place: over the first two bytes of the
   * payload. The record ends with two bytes that lay behind the payload.
   */
  function BareRecord(ctype: byte, payload: bytes, behind: bytes): (r: bytes)
    requires |behind| == 2
    ensures |r| == RH_LENGTH + |payload|
  {
    [ctype] + Zeros(BARE_LENGTH - 1) + PutBE(|payload|, 2) + (payload + behind)[2..]
  }

  /** The record as it goes on the wire. */
  function RecordBytes(aes: Aes, role: Role, suite: Suite, kb: KeyBlock, h: Header, payload: bytes): bytes
    requires |payload| < 0x100_0000
  {
    if suite.NullSuite? then PlainRecord(h, payload) else SealedRecord(aes, role, kb, h, payload)
  }

  lemma HeaderParts(h: Header, payload: bytes, buf: bytes)
    requires var n := RH_LENGTH + 8 + |payload|; |buf| >= n && buf[..n] == h.ToBytes(0) + h.Number() + payload
    ensures buf[..RH_LENGTH + 8] == h.ToBytes(0) + h.Number()
    ensures buf[RH_LENGTH..RH_LENGTH + 8] == h.Number() && buf[3..11] == h.Number()
    ensures buf[..3] == [h.ctype] + PutBE(h.version, 2)
    ensures buf[RH_LENGTH + 8..RH_LENGTH + 8 + |payload|] == payload
  {
    var b := h.ToBytes(0) + h.Number() + payload;
    assert h.ToBytes(0)[3..11] == h.Number() && h.ToBytes(0)[..3] == [h.ctype] + PutBE(h.version, 2);
    hide PutBE, Header.ToBytes, Header.Number;
    assert buf[..RH_LENGTH + 8] == b[..RH_LENGTH + 8] && buf[3..11] == b[3..11] == h.ToBytes(0)[3..11];
    assert buf[..3] == b[..3] == h.ToBytes(0)[..3];
    assert buf[RH_LENGTH..RH_LENGTH + 8] == b[RH_LENGTH..RH_LENGTH + 8];
    assert buf[RH_LENGTH + 8..|b|] == b[RH_LENGTH + 8..];
  }

  /** Encrypts the payload that lies behind the explicit nonce in sendbuf. */
  method SealInPlace(aes: Aes, role: Role, kb: KeyBlock, ghost h: Header, ghost payload: bytes,
                     sendbuf: array<byte>, n: nat)
    requires n == |payload| < 0x1_0000 && RH_LENGTH + 16 + n <= sendbuf.Length
    requires sendbuf[..RH_LENGTH + 8 + n] == h.ToBytes(0) + h.Number() + payload
    modifies sendbuf
    ensures sendbuf[..RH_LENGTH + 16 + n] == h.ToBytes(0) + SealedBody(aes, role, kb, h, payload)
  {
    hide Ccm.Encrypt, Splice, Header.Number, Header.ToBytes, PutBE, Keyed, WriteKey;
    ghost var was := sendbuf[..];
    var at := RH_LENGTH + 8;
    HeaderParts(h, payload, was);
    var nonce := Nonce(WriteIv(kb, role), sendbuf[RH_LENGTH..at]);
    var aad := sendbuf[3..11] + sendbuf[..3] + PutBE(n, 2);
    assert aad == AdditionalData(h, n);
    assert Pow256(3) == 0x100_0000;
    hide AdditionalData, Nonce;
    var r := Ccm.EncryptMessage(Keyed(aes, WriteKey(kb, role)), MAC_LENGTH, L_BYTES, nonce, sendbuf, at, n, aad);
    ghost var c := Ccm.Encrypt(Keyed(aes, WriteKey(kb, role)), MAC_LENGTH, L_BYTES, nonce, aad, payload);
    SpliceFront(was, at, c);
    assert sendbuf[..at + |c|] == sendbuf[..][..at + |c|];
    assert h.ToBytes(0) + h.Number() + c == h.ToBytes(0) + (h.Number() + c);
  }

  /** dtls_int_to_uint16(sendbuf + 11, res) */
  method SetLength(ghost h: Header, ghost body: bytes, sendbuf: array<byte>, res: nat)
    requires |body| == res && RH_LENGTH + res <= sendbuf.Length
    requires sendbuf[..RH_LENGTH + res] == h.ToBytes(0) + body
    modifies sendbuf
    ensures sendbuf[..RH_LENGTH + res] == h.ToBytes(res) + body
  {
    ghost var was := sendbuf[..];
    var at := RH_LENGTH - 2;
    ghost var head := [h.ctype] + PutBE(h.version, 2) + h.Number();
    assert h.ToBytes(0) == head + PutBE(0, 2) && h.ToBytes(res) == head + PutBE(res, 2);
    assert was[..at] == head && was[at + 2..RH_LENGTH + res] == body by {
      ghost var b := head + PutBE(0, 2) + body;
      assert was[..RH_LENGTH + res] == b;
      assert was[..at] == b[..at] && was[at + 2..RH_LENGTH + res] == b[at + 2..];
      assert b[..at] == head && b[at + 2..] == body;
    }
    hide PutBE, Header.ToBytes, Header.Number;
    Copy(sendbuf, at, PutBE(res, 2));
    assert sendbuf[..RH_LENGTH + res] == was[..at] + PutBE(res, 2) + was[at + 2..RH_LENGTH + res];
  }

  /**
   * dtls_prepare_record. A fresh record takes the next sequence number even
   * when its payload then turns out not to fit.
   */
  method PrepareRecord(aes: Aes, role: Role, security: SecurityParams?, ctype: byte, fragments: seq<bytes>,
                       sendbuf: array<byte>, room: nat, node: Node)
    returns (res: int, rlen: nat)
    requires room <= 0xFFFF && room <= sendbuf.Length
    requires security != null && security.suite.PskCcm8? ==> TagFits(sendbuf.Length, room, fragments)
    modifies sendbuf, security
    ensures var sealed := security != null && security.suite.PskCcm8?;
            res == if RH_LENGTH <= room && Room(room, if sealed then 8 else 0, fragments) then 0 else ERR_INTERNAL
    ensures security != null ==>
              security.rseq == old(security.rseq) + if RH_LENGTH <= room && node.NoNode? then 1 else 0
    ensures var sealed := security != null && security.suite.PskCcm8?;
            var payload := Flatten(fragments);
            res == 0 ==>
              && |payload| < 0x1_0000 && rlen == RH_LENGTH + |payload| + (if sealed then 16 else 0) <= sendbuf.Length
              && sendbuf[..rlen] == if security == null && node.NoNode? then
                                      BareRecord(ctype, payload, old(sendbuf[rlen - 2..rlen]))
                                    else if sealed then
                                      SealedRecord(aes, role, security.keyBlock, old(ChosenHeader(ctype, security, node)), payload)
                                    else PlainRecord(old(ChosenHeader(ctype, security, node)), payload)
  {
    hide Flatten, Header.ToBytes, Header.Number, SealedBody;
    if room < RH_LENGTH {
      return ERR_INTERNAL, room;
    }
    if security == null && node.NoNode? {
      res, rlen := BareInPlace(ctype, fragments, sendbuf, room);
      return;
    }
    var h := ChosenHeader(ctype, security, node);
    Copy(sendbuf, 0, h.ToBytes(0));
    if security != null && node.NoNode? {
      security.rseq := security.rseq + 1;
    }
    assert sendbuf[..RH_LENGTH] == h.ToBytes(0);
    if security == null || security.suite.NullSuite? {
      res, rlen := PlainInPlace(h, fragments, sendbuf, room);
    } else {
      res, rlen := SealFragments(aes, role, security.keyBlock, h, fragments, sendbuf, room);
    }
  }

  lemma BareParts(was: bytes, head: bytes, payload: bytes, length: bytes, now: bytes)
    requires |was| == |now| && RH_LENGTH + |payload| <= |was| && |head| == BARE_LENGTH && |length| == 2
    requires now == Splice(Splice(Splice(was, 0, head), BARE_LENGTH, payload), BARE_LENGTH, length)
    ensures var n := RH_LENGTH + |payload|; now[..n] == head + length + (payload + was[n - 2..n])[2..]
  {
    var n := RH_LENGTH + |payload|;
    var a := Splice(was, 0, head);
    var b := Splice(a, BARE_LENGTH, payload);
    TwoSplices(was, head, payload, b);
    hide Splice;
    assert b[BARE_LENGTH + 2..n] == (payload + was[n - 2..])[2..n - BARE_LENGTH];
    assert (payload + was[n - 2..])[..n - BARE_LENGTH] == payload + was[n - 2..n];
    assert (payload + was[n - 2..])[2..n - BARE_LENGTH] == (payload + was[n - 2..n])[2..];
    SpliceFront(b, BARE_LENGTH, length);
    SpliceBehind(b, BARE_LENGTH, length, n - RH_LENGTH);
    assert now[..n] == now[..RH_LENGTH] + now[RH_LENGTH..n];
    assert b[..BARE_LENGTH] == head;
  }

  lemma TwoSplices(was: bytes, head: bytes, payload: bytes, b: bytes)
    requires |head| + |payload| <= |was|
    requires b == Splice(Splice(was, 0, head), |head|, payload)
    ensures b == head + (payload + was[|head| + |payload|..])
  {
    SpliceTwice(was, 0, head, payload);
    assert b == [] + (head + payload) + was[|head| + |payload|..];
  }

  method BareInPlace(ctype: byte, fragments: seq<bytes>, sendbuf: array<byte>, room: nat)
    returns (res: int, rlen: nat)
    requires room <= 0xFFFF && RH_LENGTH <= room <= sendbuf.Length
    modifies sendbuf
    ensures res == if Room(room, 0, fragments) then 0 else ERR_INTERNAL
    ensures res == 0 ==>
              && |Flatten(fragments)| < 0x1_0000 && rlen == RH_LENGTH + |Flatten(fragments)| <= sendbuf.Length
              && sendbuf[..rlen] == BareRecord(ctype, Flatten(fragments), old(sendbuf[rlen - 2..rlen]))
  {
    hide Flatten, PutBE, Splice;
    ghost var was, payload := sendbuf[..], Flatten(fragments);
    Copy(sendbuf, 0, [ctype] + Zeros(BARE_LENGTH - 1));
    ghost var a := sendbuf[..];
    SplicedAt(was, 0, [ctype] + Zeros(BARE_LENGTH - 1), a);
    EmptyFragments();
    var n := CopyFragments(fragments, sendbuf, BARE_LENGTH, 0, room);
    if n < 0 {
      return ERR_INTERNAL, room;
    }
    ghost var b := sendbuf[..];
    Copy(sendbuf, BARE_LENGTH, PutBE(n, 2));
    SplicedAt(b, BARE_LENGTH, PutBE(n, 2), sendbuf[..]);
    BareParts(was, [ctype] + Zeros(BARE_LENGTH - 1), payload, PutBE(n, 2), sendbuf[..]);
    rlen := RH_LENGTH + n;
    assert sendbuf[..rlen] == sendbuf[..][..rlen];
    assert was[rlen - 2..rlen] == old(sendbuf[rlen - 2..rlen]);
    return 0, rlen;
  }

  lemma SplicedAt(b: bytes, off: nat, s: bytes, now: bytes)
    requires off + |s| <= |b| && now == b[..off] + s + b[off + |s|..]
    ensures now == Splice(b, off, s)
  {
  }

  lemma EmptyFragments()
    ensures Flatten([]) == []
  {
  }

  method PlainInPlace(ghost h: Header, fragments: seq<bytes>, sendbuf: array<byte>, room: nat)
    returns (res: int, rlen: nat)
    requires room <= 0xFFFF && RH_LENGTH <= room <= sendbuf.Length && sendbuf[..RH_LENGTH] == h.ToBytes(0)
    modifies sendbuf
    ensures res == if Room(room, 0, fragments) then 0 else ERR_INTERNAL
    ensures res == 0 ==>
              && |Flatten(fragments)| < 0x1_0000 && rlen == RH_LENGTH + |Flatten(fragments)| <= sendbuf.Length
              && sendbuf[..rlen] == PlainRecord(h, Flatten(fragments))
  {
    ghost var was, payload := sendbuf[..], Flatten(fragments);
    assert Flatten([]) == [];
    hide Flatten, Header.ToBytes, Splice;
    var n := CopyFragments(fragments, sendbuf, RH_LENGTH, 0, room);
    if n < 0 {
      return ERR_INTERNAL, room;
    }
    SpliceFront(was, RH_LENGTH, payload);
    assert was[..RH_LENGTH] == h.ToBytes(0);
    assert sendbuf[..RH_LENGTH + n] == sendbuf[..][..RH_LENGTH + n];
    SetLength(h, payload, sendbuf, n);
    return 0, RH_LENGTH + n;
  }

  method SealFragments(aes: Aes, role: Role, kb: KeyBlock, h: Header, fragments: seq<bytes>,
                       sendbuf: array<byte>, room: nat)
    returns (res: int, rlen: nat)
    requires RH_LENGTH <= room <= 0xFFFF && TagFits(sendbuf.Length, room, fragments)
    requires sendbuf[..RH_LENGTH] == h.ToBytes(0)
    modifies sendbuf
    ensures res == if Room(room, 8, fragments) then 0 else ERR_INTERNAL
    ensures res == 0 ==>
              && |Flatten(fragments)| < 0x1_0000 && rlen == RH_LENGTH + |Flatten(fragments)| + 16 <= sendbuf.Length
              && sendbuf[..rlen] == SealedRecord(aes, role, kb, h, Flatten(fragments))
  {
    ghost var payload := Flatten(fragments);
    assert Flatten([]) == [];
    hide Flatten, Header.ToBytes, Header.Number, Splice, SealedBody;
    AppendNumber(h, sendbuf);
    ghost var was := sendbuf[..];
    var n := CopyFragments(fragments, sendbuf, RH_LENGTH + 8, 8, room);
    if n < 0 {
      return ERR_INTERNAL, room;
    }
    SpliceFront(was, RH_LENGTH + 8, payload);
    assert was[..RH_LENGTH + 8] == h.ToBytes(0) + h.Number();
    assert sendbuf[..RH_LENGTH + n] == sendbuf[..][..RH_LENGTH + n];
    SealInPlace(aes, role, kb, h, payload, sendbuf, n - 8);
    SetLength(h, SealedBody(aes, role, kb, h, payload), sendbuf, n + 8);
    return 0, RH_LENGTH + n + 8;
  }

  /** memcpy(p, &DTLS_RECORD_HEADER(sendbuf)->epoch, 8): the explicit nonce */
  method AppendNumber(h: Header, sendbuf: array<byte>)
    requires RH_LENGTH + 8 <= sendbuf.Length && sendbuf[..RH_LENGTH] == h.ToBytes(0)
    modifies sendbuf
    ensures sendbuf[..RH_LENGTH + 8] == h.ToBytes(0) + h.Number()
  {
    var number := sendbuf[3..11];
    assert number == h.Number() by {
      assert number == h.ToBytes(0)[3..11];
    }
    hide Header.ToBytes, Header.Number;
    Copy(sendbuf, RH_LENGTH, number);
  }

  // ----- receiving -----

  /** decrypt_verify: decrypts in place and says where the cleartext starts. */
  method DecryptVerify(aes: Aes, role: Role, suite: Suite, kb: KeyBlock, packet: array<byte>, length: nat)
    returns (clen: int, start: nat)
    requires RH_LENGTH <= length <= packet.Length && length <= RH_LENGTH + 0xFFFF
    modifies packet
    ensures var got := Open(aes, role, suite, kb, old(packet[..length]));
            if got.Rejected? then clen == -1
            else clen >= 0 && start + clen <= packet.Length && packet[start..start + clen] == got.data
  {
    start, clen := RH_LENGTH, length - RH_LENGTH;
    ghost var was := packet[..length];
    assert was[RH_LENGTH..] == packet[RH_LENGTH..length];
    if suite.NullSuite? {
      return;
    }
    if clen < 16 {
      return -1, start;
    }
    hide ReadHeader, OpenBody, PutBE, Header.Number, Nonce;
    ghost var h, body := ReadHeader(was), was[RH_LENGTH..];
    ReadNumber(was);
    assert packet[3..11] == was[3..11] && packet[..3] == was[..3];
    clen := OpenInPlace(aes, role, kb, h, body, packet, clen);
    start := start + 8;
  }

  /** The sealed body, opened where it lies. */
  method OpenInPlace(aes: Aes, role: Role, kb: KeyBlock, ghost h: Header, ghost body: bytes,
                     packet: array<byte>, length: nat)
    returns (clen: int)
    requires 16 <= length == |body| <= 0xFFFF && RH_LENGTH + length <= packet.Length
    requires packet[RH_LENGTH..RH_LENGTH + length] == body
    requires packet[3..11] == h.Number() && packet[..3] == [h.ctype] + PutBE(h.version, 2)
    modifies packet
    ensures var got := OpenBody(aes, role, kb, h, body);
            if got.Rejected? then clen == -1
            else clen >= 0 && RH_LENGTH + 8 + clen <= packet.Length
                 && packet[RH_LENGTH + 8..RH_LENGTH + 8 + clen] == got.data
  {
    hide PutBE, Header.Number, AdditionalData, Nonce, Ccm.Accepted, Ccm.Recovered, Ccm.Unmasked, Keyed, OpenBody, Splice;
    var peer, at := role.Other(), RH_LENGTH + 8;
    ghost var c := body[8..];
    assert packet[RH_LENGTH..at] == body[..8] && packet[at..at + (length - 8)] == c;
    var nonce := Nonce(WriteIv(kb, peer), packet[RH_LENGTH..at]);
    clen := length - 8;
    var aad := packet[3..11] + packet[..3] + PutBE(clen - MAC_LENGTH, 2);
    OpenBodyIs(aes, role, kb, h, body, nonce, aad);
    ghost var all, E := packet[..], Keyed(aes, WriteKey(kb, peer));
    ghost var p, t := Ccm.Recovered(E, MAC_LENGTH, L_BYTES, nonce, c), Ccm.Unmasked(E, MAC_LENGTH, L_BYTES, nonce, c);
    clen := Ccm.DecryptMessage(Keyed(aes, WriteKey(kb, peer)), MAC_LENGTH, L_BYTES, nonce, packet, at, clen, aad);
    SplicePart(all, at, p, t);
    assert packet[at..at + |p|] == packet[..][at..at + |p|];
  }

  lemma OpenBodyIs(aes: Aes, role: Role, kb: KeyBlock, h: Header, body: bytes, nonce: bytes, aad: bytes)
    requires 16 <= |body| <= 0xFFFF && nonce == Nonce(WriteIv(kb, role.Other()), body[..8])
    requires aad == h.Number() + ([h.ctype] + PutBE(h.version, 2)) + PutBE(|body| - 16, 2)
    ensures Ccm.Params(MAC_LENGTH, L_BYTES, nonce, aad, |body| - 16)
    ensures var E, c := Keyed(aes, WriteKey(kb, role.Other())), body[8..];
            OpenBody(aes, role, kb, h, body)
            == if Ccm.Accepted(E, MAC_LENGTH, L_BYTES, nonce, aad, c)
               then Cleartext(Ccm.Recovered(E, MAC_LENGTH, L_BYTES, nonce, c)) else Rejected
  {
    assert aad == AdditionalData(h, |body| - 16);
    assert Pow256(3) == 0x100_0000;
    hide PutBE, Header.Number, AdditionalData, Nonce, Keyed, Ccm.Accepted, Ccm.Recovered;
  }

  /** The header fields as the bytes they were read from. */
  lemma ReadNumber(packet: bytes)
    requires |packet| >= RH_LENGTH
    ensures ReadHeader(packet).Number() == packet[3..11]
    ensures [packet[0]] + PutBE(ReadHeader(packet).version, 2) == packet[..3]
  {
    hide PutBE, GetBE, Pow256;
    var v, e, n := packet[1..3], packet[3..5], packet[5..11];
    Field2(v); Field2(e); Field6(n);
    assert packet[3..11] == e + n && packet[..3] == [packet[0]] + v;
  }

  // ----- what a retransmission repeats -----

  /** dtls_send_multi keeps the 48-bit number of a sent record with a 16-bit read. */
  function KeptNode(sent: bytes): Node
    requires |sent| >= RH_LENGTH
  {
    Node(GetBE(sent[1..3]), GetBE(sent[3..5]), GetBE(sent[5..7]))
  }

  /**
   * A retransmission is meant to repeat the record number. It does so exactly
   * when that number is 0; every number below 2^32 is sent again as 0.
   */
  lemma RetransmitsNumberOnlyIfZero(h: Header, length: nat, rest: bytes)
    requires h.Fits() && length < 0x1_0000
    ensures var node := KeptNode(h.ToBytes(length) + rest);
            && node.version == h.version && node.epoch == h.epoch
            && node.rseq == h.seqnum / 0x1_0000_0000
            && (node.rseq == h.seqnum <==> h.seqnum == 0)
  {
    var p := h.ToBytes(length) + rest;
    HeaderReadsBack(h, length, rest);
    assert p[5..7] == PutBE(h.seqnum, 6)[..2];
    assert p[5..7] == PutBE(h.seqnum / 0x1_0000_0000, 2) by { TopBytes(h.seqnum); }
    assert Pow256(2) == 0x1_0000;
    GetPutBE(h.seqnum / 0x1_0000_0000, 2);
  }

  /** The header that is written for the kept node: that of the record, but for its number; the same exactly if that is 0. */
  lemma RetransmittedHeader(security: SecurityParams?, h: Header, length: nat, rest: bytes)
    requires h.Fits() && length < 0x1_0000
    ensures var g := ChosenHeader(h.ctype, security, KeptNode(h.ToBytes(length) + rest));
            g == h.(seqnum := h.seqnum / 0x1_0000_0000) && (g == h <==> h.seqnum == 0)
  {
    RetransmitsNumberOnlyIfZero(h, length, rest);
    hide KeptNode, Header.ToBytes;
  }

  lemma TopBytes(v: nat)
    ensures PutBE(v, 6)[..2] == PutBE(v / 0x1_0000_0000, 2)
  {
    assert v / 256 / 256 / 256 / 256 == v / 0x1_0000_0000;
    assert PutBE(v, 6) == PutBE(v / 256, 5) + [v % 256];
    assert PutBE(v / 256, 5) == PutBE(v / 256 / 256, 4) + [v / 256 % 256];
    assert PutBE(v / 256 / 256, 4) == PutBE(v / 256 / 256 / 256, 3) + [v / 256 / 256 % 256];
    assert PutBE(v / 256 / 256 / 256, 3) == PutBE(v / 256 / 256 / 256 / 256, 2) + [v / 256 / 256 / 256 % 256];
  }

  /** dtls_send_multi writes the DTLS 1.0 version over a Hello after the record was prepared. */
  function Relabelled(r: bytes): bytes
    requires |r| >= RH_LENGTH
  {
    r[..1] + PutBE(DTLS10_VERSION, 2) + r[3..]
  }

  /**
   * In epoch 0 the relabelled record still opens, to the same payload. A sealed
   * one is checked against other additional data than it was sealed with.
   */
  lemma RelabelledRecord(aes: Aes, role: Role, kb: KeyBlock, h: Header, payload: bytes)
    requires h.Fits() && h.version == DTLS_VERSION && |payload| + 16 < 0x1_0000
    ensures var h' := h.(version := DTLS10_VERSION);
            && Relabelled(PlainRecord(h, payload)) == PlainRecord(h', payload)
            && Open(aes, role, NullSuite, kb, PlainRecord(h', payload)) == Cleartext(payload)
            && Relabelled(SealedRecord(aes, role, kb, h, payload))
            == h'.ToBytes(8 + |payload| + MAC_LENGTH) + SealedBody(aes, role, kb, h, payload)
            && AdditionalData(h', |payload|) != AdditionalData(h, |payload|)
  {
    var h' := h.(version := DTLS10_VERSION);
    RelabelledHeader(h, |payload|, payload);
    RelabelledHeader(h, 8 + |payload| + MAC_LENGTH, SealedBody(aes, role, kb, h, payload));
    AdditionalDataDiffers(h, |payload|);
    hide Relabelled, SealedBody, AdditionalData, Header.ToBytes;
    assert PlainRecord(h', payload)[RH_LENGTH..] == payload;
  }

  lemma AdditionalDataDiffers(h: Header, n: nat)
    requires h.version == DTLS_VERSION
    ensures AdditionalData(h.(version := DTLS10_VERSION), n) != AdditionalData(h, n)
  {
    assert PutBE(DTLS10_VERSION, 2)[1] == 0xff && PutBE(DTLS_VERSION, 2)[1] == 0xfd;
    assert AdditionalData(h.(version := DTLS10_VERSION), n)[10] == 0xff;
    assert AdditionalData(h, n)[10] == 0xfd;
  }

  lemma RelabelledHeader(h: Header, n: nat, body: bytes)
    ensures Relabelled(h.ToBytes(n) + body) == h.(version := DTLS10_VERSION).ToBytes(n) + body
  {
    var r, v := h.ToBytes(n) + body, PutBE(DTLS10_VERSION, 2);
    hide PutBE;
    assert r[..1] == [h.ctype] && r[3..] == (h.Number() + PutBE(n, 2)) + body;
    assert [h.ctype] + v + ((h.Number() + PutBE(n, 2)) + body) == ([h.ctype] + v + h.Number() + PutBE(n, 2)) + body;
  }
}
