/**
 * The handshake messages of the PSK handshake as bytes: how tinydtls builds
 * them and the reads it makes of them (dtls.c).
 */
module HandshakeCodec {
  import opened Bytes
  import Record
  import Prf

  const HS_LENGTH := 12
  const CH_LENGTH := 34           // sizeof(dtls_client_hello_t)
  const HV_LENGTH := 3            // sizeof(dtls_hello_verify_t)
  const FIN_LENGTH := 12
  const RANDOM_LENGTH := 32
  const COOKIE_LENGTH := 16
  const COOKIE_LENGTH_MAX := 32
  const IDENTITY_MAX := 32        // DTLS_PSK_MAX_CLIENT_IDENTITY_LEN
  const PSK_KEY_MAX := 16         // DTLS_PSK_MAX_KEY_LEN

  const HT_HELLO_REQUEST: byte := 0
  const HT_CLIENT_HELLO: byte := 1
  const HT_SERVER_HELLO: byte := 2
  const HT_HELLO_VERIFY_REQUEST: byte := 3
  const HT_CERTIFICATE: byte := 11
  const HT_SERVER_KEY_EXCHANGE: byte := 12
  const HT_CERTIFICATE_REQUEST: byte := 13
  const HT_SERVER_HELLO_DONE: byte := 14
  const HT_CERTIFICATE_VERIFY: byte := 15
  const HT_CLIENT_KEY_EXCHANGE: byte := 16
  const HT_FINISHED: byte := 20

  const NULL_WITH_NULL_NULL := 0
  const PSK_WITH_AES_128_CCM_8 := 0xC0A8
  const ECDHE_ECDSA_WITH_AES_128_CCM_8 := 0xC0AE

  type Random = r: bytes | |r| == RANDOM_LENGTH witness seq(RANDOM_LENGTH, _ => 0)

  // ----- reading -----

  /** A byte of the message; what lies beyond its end is read as 0 here. */
  function At(data: bytes, i: nat): byte { if i < |data| then data[i] else 0 }

  function Sub(data: bytes, i: nat, n: nat): (r: bytes)
    ensures |r| == n
  {
    seq<byte>(n, k requires 0 <= k < n => At(data, i + k))
  }

  function U16(data: bytes, i: nat): nat { 256 * At(data, i) + At(data, i + 1) }

  function U24(data: bytes, i: nat): nat { 65536 * At(data, i) + 256 * At(data, i + 1) + At(data, i + 2) }

  function MsgType(data: bytes): byte { At(data, 0) }
  function MsgSeq(data: bytes): nat { U16(data, 4) }

  // ----- building -----

  function B16(v: nat): (r: bytes)
    ensures |r| == 2
  {
    [v / 256 % 256, v % 256]
  }

  function B24(v: nat): (r: bytes)
    ensures |r| == 3
  {
    [v / 65536 % 256, v / 256 % 256, v % 256]
  }

  function HsHeader(htype: byte, length: nat, mseq: nat): (r: bytes)
    ensures |r| == HS_LENGTH
  {
    [htype] + B24(length) + B16(mseq) + B24(0) + B24(length)
  }

  /** A whole handshake message, as sent in one fragment. */
  function Message(htype: byte, mseq: nat, body: bytes): (r: bytes)
    ensures |r| == HS_LENGTH + |body|
  {
    HsHeader(htype, |body|, mseq) + body
  }

  function ClientHelloBody(random: Random, cookie: bytes): bytes
    requires |cookie| < 256
  {
    B16(Record.DTLS_VERSION) + random + [0] + [|cookie|] + cookie
    + (B16(2) + B16(PSK_WITH_AES_128_CCM_8) + [1, 0])
  }

  function HelloVerifyBody(cookie: bytes): bytes
    requires |cookie| < 256
  {
    B16(Record.DTLS_VERSION) + [|cookie|] + cookie
  }

  function ServerHelloBody(random: Random, cipher: nat): bytes
  {
    B16(Record.DTLS_VERSION) + random + [0] + B16(cipher) + [0]
  }

  function IdentityBody(identity: bytes): bytes { B16(|identity|) + identity }

  // ----- reading back -----

  lemma MessageReads(htype: byte, mseq: nat, body: bytes)
    requires mseq < 0x1_0000 && |body| < 0x100_0000
    ensures var m := Message(htype, mseq, body);
            && MsgType(m) == htype && MsgSeq(m) == mseq && U24(m, 9) == |body|
            && m[HS_LENGTH..] == body
            && forall i :: 0 <= i < |body| ==> At(m, HS_LENGTH + i) == body[i]
  {
    var m := Message(htype, mseq, body);
    HeaderReads(htype, |body|, mseq, body);
    hide HsHeader, MsgType, MsgSeq, U24;
    forall i | 0 <= i < |body| ensures At(m, HS_LENGTH + i) == body[i] {
      assert m[HS_LENGTH..][i] == body[i];
    }
  }

  lemma HeaderReads(htype: byte, length: nat, mseq: nat, body: bytes)
    requires length < 0x100_0000
    ensures var m := HsHeader(htype, length, mseq) + body;
            MsgType(m) == htype && MsgSeq(m) == mseq % 0x1_0000 && U24(m, 1) == length && U24(m, 6) == 0 && U24(m, 9) == length
  {
    var h := HsHeader(htype, length, mseq);
    assert h[1..4] == B24(length) && h[4..6] == B16(mseq) && h[6..9] == B24(0) && h[9..12] == B24(length);
  }

  /** Every message is sent whole: its one fragment begins at 0 and has the length of the message. */
  lemma SentWhole(htype: byte, mseq: nat, body: bytes)
    requires |body| < 0x100_0000
    ensures var m := Message(htype, mseq, body);
            U24(m, 1) == |body| && U24(m, 6) == 0 && U24(m, 9) == |body| && |m| == HS_LENGTH + |body|
  {
    HeaderReads(htype, |body|, mseq, body);
    hide HsHeader, U24;
  }

  lemma SubOf(data: bytes, i: nat, n: nat)
    requires i + n <= |data|
    ensures Sub(data, i, n) == data[i..i + n]
  {
    forall k | 0 <= k < n ensures Sub(data, i, n)[k] == data[i..i + n][k] {
      assert At(data, i + k) == data[i + k];
    }
  }
}
