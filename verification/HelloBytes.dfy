/** What each side reads in the handshake messages the other side builds. */
module HelloBytes {
  import opened Bytes
  import opened HandshakeCodec
  import opened Engine
  import Record
  import Prf

  /** Reading at an offset into the body of a message. */
  lemma BodyAt(htype: byte, mseq: nat, body: bytes, i: nat)
    ensures HandshakeCodec.At(Message(htype, mseq, body), HS_LENGTH + i) == HandshakeCodec.At(body, i)
  {
    if i < |body| {
      assert Message(htype, mseq, body)[HS_LENGTH + i] == body[i];
    }
  }

  lemma BodySub(htype: byte, mseq: nat, body: bytes, i: nat, n: nat)
    ensures Sub(Message(htype, mseq, body), HS_LENGTH + i, n) == Sub(body, i, n)
  {
    var m := Message(htype, mseq, body);
    forall k | 0 <= k < n ensures Sub(m, HS_LENGTH + i, n)[k] == Sub(body, i, n)[k] {
      BodyAt(htype, mseq, body, i + k);
    }
  }

  lemma SubMiddle(a: bytes, b: bytes, c: bytes)
    ensures Sub(a + b + c, |a|, |b|) == b
  {
    var s := a + b + c;
    SubOf(s, |a|, |b|);
    assert s[|a|..|a| + |b|] == b;
  }

  // ----- ClientHello -----

  function Suffix(): bytes { B16(2) + B16(PSK_WITH_AES_128_CCM_8) + [1, 0] }

  function HelloMessage(mseq: nat, random: Random, cookie: bytes): bytes
    requires |cookie| < 256
  {
    Message(HT_CLIENT_HELLO, mseq, ClientHelloBody(random, cookie))
  }

  lemma ClientHelloReads(mseq: nat, random: Random, cookie: bytes)
    requires mseq < 0x1_0000 && |cookie| < 256
    ensures var m, c := HelloMessage(mseq, random, cookie), |cookie|;
            && |m| == HS_LENGTH + 42 + c && MsgType(m) == HT_CLIENT_HELLO && MsgSeq(m) == mseq && U24(m, 9) == 42 + c
            && U16(m, HS_LENGTH) == Record.DTLS_VERSION && Sub(m, HS_LENGTH + 2, RANDOM_LENGTH) == random
            && HandshakeCodec.At(m, HS_LENGTH + CH_LENGTH) == 0
            && HandshakeCodec.At(m, HS_LENGTH + CH_LENGTH + 1) == c
            && Sub(m, HS_LENGTH + CH_LENGTH + 2, c) == cookie
            && Sub(m, HS_LENGTH, CH_LENGTH + 1) == B16(Record.DTLS_VERSION) + random + [0]
            && Sub(m, HS_LENGTH + CH_LENGTH + 2 + c, 6) == Suffix()
  {
    var body, c := ClientHelloBody(random, cookie), |cookie|;
    MessageReads(HT_CLIENT_HELLO, mseq, body);
    BodyAt(HT_CLIENT_HELLO, mseq, body, 0); BodyAt(HT_CLIENT_HELLO, mseq, body, 1);
    BodyAt(HT_CLIENT_HELLO, mseq, body, CH_LENGTH); BodyAt(HT_CLIENT_HELLO, mseq, body, CH_LENGTH + 1);
    BodySub(HT_CLIENT_HELLO, mseq, body, 2, RANDOM_LENGTH);
    BodySub(HT_CLIENT_HELLO, mseq, body, CH_LENGTH + 2, c);
    BodySub(HT_CLIENT_HELLO, mseq, body, 0, CH_LENGTH + 1);
    BodySub(HT_CLIENT_HELLO, mseq, body, CH_LENGTH + 2 + c, 6);
    HelloBodyParts(random, cookie);
    hide Message, ClientHelloBody, Sub, B16;
  }

  lemma HelloBodyParts(random: Random, cookie: bytes)
    requires |cookie| < 256
    ensures var body, c := ClientHelloBody(random, cookie), |cookie|;
            && |body| == 42 + c
            && U16(body, 0) == Record.DTLS_VERSION && Sub(body, 2, RANDOM_LENGTH) == random
            && HandshakeCodec.At(body, CH_LENGTH) == 0 && HandshakeCodec.At(body, CH_LENGTH + 1) == c
            && Sub(body, CH_LENGTH + 2, c) == cookie
            && Sub(body, 0, CH_LENGTH + 1) == B16(Record.DTLS_VERSION) + random + [0]
            && Sub(body, CH_LENGTH + 2 + c, 6) == Suffix()
  {
    var body, v, c := ClientHelloBody(random, cookie), B16(Record.DTLS_VERSION), |cookie|;
    var front := v + random + [0];
    assert body == v + random + ([0] + [c] + cookie + Suffix());
    SubMiddle(v, random, [0] + [c] + cookie + Suffix());
    assert body == (front + [c]) + cookie + Suffix();
    SubMiddle(front + [c], cookie, Suffix());
    assert body == [] + front + ([c] + cookie + Suffix());
    SubMiddle([], front, [c] + cookie + Suffix());
    assert body == (front + [c] + cookie) + Suffix() + [];
    SubMiddle(front + [c] + cookie, Suffix(), []);
    assert body[CH_LENGTH] == front[CH_LENGTH] && body[CH_LENGTH + 1] == c;
    assert body[0] == v[0] && body[1] == v[1];
  }

  // ----- the cookie -----

  /** What the cookie of a ClientHello is made from: everything but the cookie. */
  function CookieText(env: Env, random: Random): bytes
  {
    env.address + (B16(Record.DTLS_VERSION) + random + [0]) + Suffix()
  }

  function CookieFor(env: Env, random: Random): (r: bytes)
    ensures |r| == COOKIE_LENGTH
  {
    Prf.Hmac(env.hash, env.cookieSecret, CookieText(env, random))[..COOKIE_LENGTH]
  }

  /** The server makes the same cookie for both ClientHellos and finds the one it is sent. */
  lemma SameCookie(env: Env, mseq: nat, random: Random, cookie: bytes)
    requires mseq < 0x1_0000 && |cookie| < 256
    ensures var m := HelloMessage(mseq, random, cookie);
            CreateCookie(env, m) == PskInfo(CookieFor(env, random)) && GetCookie(m) == PskInfo(cookie)
  {
    ClientHelloReads(mseq, random, cookie);
    hide HelloMessage, Sub, U16, U24, HandshakeCodec.At, Prf.Hmac, Suffix, B16, MsgType, MsgSeq;
  }

  /** The server takes random and cipher from the client's ClientHello, and finds nothing wrong with it. */
  lemma HelloAccepted(env: Env, c: Ctx, mseq: nat, random: Random, cookie: bytes)
    requires HasHs(c) && mseq < 0x1_0000 && |cookie| < 256
    ensures UpdateParameters(env, c, HelloMessage(mseq, random, cookie))
         == R(SetHs(c, Hs(c).(clientRandom := random, cipher := PSK_WITH_AES_128_CCM_8)), 0)
  {
    var m, at := HelloMessage(mseq, random, cookie), HS_LENGTH + CH_LENGTH + 2 + |cookie|;
    ClientHelloReads(mseq, random, cookie);
    SuffixReads(m, at);
    CipherFound(m, at);
    hide HelloMessage, Sub, HandshakeCodec.At, U16, U24, MsgType, MsgSeq, FindCipher, FindCompression;
  }

  lemma SuffixReads(m: bytes, at: nat)
    requires Sub(m, at, 6) == Suffix()
    ensures U16(m, at) == 2 && U16(m, at + 2) == PSK_WITH_AES_128_CCM_8
    ensures HandshakeCodec.At(m, at + 4) == 1 && HandshakeCodec.At(m, at + 5) == 0
  {
    assert Suffix() == [0, 2, 0xC0, 0xA8, 1, 0];
    var s := Sub(m, at, 6);
    assert s[0] == HandshakeCodec.At(m, at) && s[1] == HandshakeCodec.At(m, at + 1);
    assert s[2] == HandshakeCodec.At(m, at + 2) && s[3] == HandshakeCodec.At(m, at + 3);
    assert s[4] == HandshakeCodec.At(m, at + 4) && s[5] == HandshakeCodec.At(m, at + 5);
  }

  lemma CipherFound(m: bytes, at: nat)
    requires U16(m, at + 2) == PSK_WITH_AES_128_CCM_8 && HandshakeCodec.At(m, at + 5) == 0
    ensures FindCipher(m, at + 2, 2) && FindCompression(m, at + 5, 1) == Some(1)
  {
    hide U16;
  }

  // ----- the server's messages -----

  lemma HelloVerifyReads(mseq: nat, cookie: bytes)
    requires mseq < 0x1_0000 && |cookie| < 256
    ensures var m := Message(HT_HELLO_VERIFY_REQUEST, mseq, HelloVerifyBody(cookie));
            && |m| == HS_LENGTH + HV_LENGTH + |cookie| && MsgType(m) == HT_HELLO_VERIFY_REQUEST && MsgSeq(m) == mseq
            && HandshakeCodec.At(m, HS_LENGTH + 2) == |cookie| && Sub(m, HS_LENGTH + HV_LENGTH, |cookie|) == cookie
  {
    var body := HelloVerifyBody(cookie);
    MessageReads(HT_HELLO_VERIFY_REQUEST, mseq, body);
    BodyAt(HT_HELLO_VERIFY_REQUEST, mseq, body, 2);
    BodySub(HT_HELLO_VERIFY_REQUEST, mseq, body, HV_LENGTH, |cookie|);
    assert body == (B16(Record.DTLS_VERSION) + [|cookie|]) + cookie + [];
    SubMiddle(B16(Record.DTLS_VERSION) + [|cookie|], cookie, []);
    hide Message, Sub;
  }

  lemma ServerHelloReads(mseq: nat, random: Random, cipher: nat)
    requires mseq < 0x1_0000 && cipher < 0x1_0000
    ensures var m := Message(HT_SERVER_HELLO, mseq, ServerHelloBody(random, cipher));
            && |m| == HS_LENGTH + 38 && MsgType(m) == HT_SERVER_HELLO && MsgSeq(m) == mseq
            && U16(m, HS_LENGTH) == Record.DTLS_VERSION && Sub(m, HS_LENGTH + 2, RANDOM_LENGTH) == random
            && HandshakeCodec.At(m, HS_LENGTH + 34) == 0 && U16(m, HS_LENGTH + 35) == cipher
            && HandshakeCodec.At(m, HS_LENGTH + 37) == 0
  {
    var body := ServerHelloBody(random, cipher);
    MessageReads(HT_SERVER_HELLO, mseq, body);
    BodyAt(HT_SERVER_HELLO, mseq, body, 0); BodyAt(HT_SERVER_HELLO, mseq, body, 1);
    BodyAt(HT_SERVER_HELLO, mseq, body, 34); BodyAt(HT_SERVER_HELLO, mseq, body, 35);
    BodyAt(HT_SERVER_HELLO, mseq, body, 36); BodyAt(HT_SERVER_HELLO, mseq, body, 37);
    BodySub(HT_SERVER_HELLO, mseq, body, 2, RANDOM_LENGTH);
    assert body == B16(Record.DTLS_VERSION) + random + ([0] + B16(cipher) + [0]);
    SubMiddle(B16(Record.DTLS_VERSION), random, [0] + B16(cipher) + [0]);
    hide Message, Sub;
  }

  lemma ServerHelloAccepted(env: Env, c: Ctx, mseq: nat, random: Random)
    requires HasHs(c) && mseq < 0x1_0000
    ensures var m := Message(HT_SERVER_HELLO, mseq, ServerHelloBody(random, PSK_WITH_AES_128_CCM_8));
            CheckServerHello(env, c, m) ==
            R(SetHs(c, Feed(Hs(c), m).(serverRandom := random, cipher := PSK_WITH_AES_128_CCM_8)), 0)
  {
    ServerHelloReads(mseq, random, PSK_WITH_AES_128_CCM_8);
    hide Message, Sub, HandshakeCodec.At, U16, MsgType, MsgSeq;
  }

  lemma IdentityReads(htype: byte, mseq: nat, identity: bytes)
    requires mseq < 0x1_0000 && |identity| <= IDENTITY_MAX
    ensures var m := Message(htype, mseq, IdentityBody(identity));
            && |m| == HS_LENGTH + 2 + |identity| && MsgType(m) == htype && MsgSeq(m) == mseq
            && U16(m, HS_LENGTH) == |identity| && Sub(m, HS_LENGTH + 2, |identity|) == identity
  {
    var body := IdentityBody(identity);
    MessageReads(htype, mseq, body);
    BodyAt(htype, mseq, body, 0); BodyAt(htype, mseq, body, 1);
    BodySub(htype, mseq, body, 2, |identity|);
    assert body == B16(|identity|) + identity + [];
    SubMiddle(B16(|identity|), identity, []);
    hide Message, Sub;
  }

  lemma FinishedReads(mseq: nat, verify: bytes)
    requires mseq < 0x1_0000 && |verify| == FIN_LENGTH
    ensures var m := Message(HT_FINISHED, mseq, verify);
            && |m| == HS_LENGTH + FIN_LENGTH && MsgType(m) == HT_FINISHED && MsgSeq(m) == mseq
            && Sub(m, HS_LENGTH, FIN_LENGTH) == verify
  {
    MessageReads(HT_FINISHED, mseq, verify);
    SubOf(Message(HT_FINISHED, mseq, verify), HS_LENGTH, FIN_LENGTH);
    hide Message;
  }
}
