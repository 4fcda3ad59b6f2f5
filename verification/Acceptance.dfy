/**
 * Which handshake messages are taken: for each check of the engine the exact
 * condition on the bytes of the message (the check functions of dtls.c).
 */
module Acceptance {
  import opened Bytes
  import opened HandshakeCodec
  import opened Engine
  import Prf
  import Record

  // ----- lists of two- and one-byte entries -----

  /** The known cipher is among the entries; a list of odd length has no end but that of the message. */
  ghost predicate Offered(data: bytes, at: nat, n: nat)
  {
    exists k: nat :: (n % 2 == 0 ==> 2 * k < n) && U16(data, at + 2 * k) == PSK_WITH_AES_128_CCM_8
  }

  ghost predicate OfferedFrom(data: bytes, at: nat, i: int)
  {
    exists k: nat :: (i % 2 == 0 ==> 2 * k < i) && U16(data, at + 2 * k) == PSK_WITH_AES_128_CCM_8
  }

  lemma NothingBehind(data: bytes, at: nat)
    requires at >= |data|
    ensures U16(data, at) == 0
  {
  }

  lemma OneEntry(data: bytes, at: nat, i: int)
    requires i % 2 == 0 ==> i > 0
    ensures OfferedFrom(data, at, i) <==> U16(data, at) == PSK_WITH_AES_128_CCM_8 || OfferedFrom(data, at + 2, i - 2)
  {
    hide U16;
    if k: nat :| (i % 2 == 0 ==> 2 * k < i) && U16(data, at + 2 * k) == PSK_WITH_AES_128_CCM_8 && k > 0 {
      assert U16(data, at + 2 + 2 * (k - 1)) == PSK_WITH_AES_128_CCM_8;
    }
    if k: nat :| ((i - 2) % 2 == 0 ==> 2 * k < i - 2) && U16(data, at + 2 + 2 * k) == PSK_WITH_AES_128_CCM_8 {
      assert U16(data, at + 2 * (k + 1)) == PSK_WITH_AES_128_CCM_8;
    }
    if U16(data, at) == PSK_WITH_AES_128_CCM_8 {
      assert U16(data, at + 2 * 0) == PSK_WITH_AES_128_CCM_8;
    }
  }

  lemma {:induction false} CipherFoundIf(data: bytes, at: nat, i: int)
    requires i % 2 == 0 ==> i >= 0
    ensures FindCipher(data, at, i) <==> OfferedFrom(data, at, i)
    decreases if i > 0 then i else 0, |data| + 2 - at
  {
    if i != 0 {
      OneEntry(data, at, i);
      if i > 0 || at < |data| {
        hide U16;
        CipherFoundIf(data, at + 2, i - 2);
      } else {
        forall k: nat ensures U16(data, at + 2 * k) == 0 {
          NothingBehind(data, at + 2 * k);
        }
      }
    }
  }

  /** The loop over the cipher suites finds a known cipher exactly if it is offered. */
  lemma CipherFoundExactly(data: bytes, at: nat, n: nat)
    ensures FindCipher(data, at, n) <==> Offered(data, at, n)
  {
    CipherFoundIf(data, at, n);
  }

  predicate NullAt(data: bytes, at: nat, k: nat) { HandshakeCodec.At(data, at + k) == 0 }

  ghost predicate NullIn(data: bytes, at: nat, n: nat) { exists k: nat :: k < n && NullAt(data, at, k) }

  lemma OneMethod(data: bytes, at: nat, n: nat)
    requires n > 0
    ensures NullIn(data, at, n) <==> HandshakeCodec.At(data, at) == 0 || NullIn(data, at + 1, n - 1)
  {
    hide HandshakeCodec.At;
    var first, p := HandshakeCodec.At(data, at) == 0, at + 1;
    assert NullAt(data, at, 0) <==> first;
    if k: nat :| k < n && NullAt(data, at, k) && k > 0 {
      assert NullAt(data, p, k - 1);
    }
    if k: nat :| k < n - 1 && NullAt(data, p, k) {
      assert NullAt(data, at, k + 1);
    }
  }

  /** The loop over the compression methods finds null compression exactly if it is offered. */
  lemma {:induction false} CompressionFoundExactly(data: bytes, at: nat, n: nat)
    ensures FindCompression(data, at, n).Some? <==> NullIn(data, at, n)
    decreases n
  {
    if n > 0 {
      CompressionFoundExactly(data, at + 1, n - 1);
      OneMethod(data, at, n);
      hide HandshakeCodec.At, NullIn;
    }
  }

  // ----- in which state -----

  /** The state in which a message of this type is looked at; with an unknown cipher a key exchange is in any. */
  predicate Awaited(c: Ctx, state: State, htype: byte)
    requires HasHs(c)
  {
    || ((htype == HT_HELLO_VERIFY_REQUEST || htype == HT_SERVER_HELLO) && state.ClientHello?)
    || ((htype == HT_SERVER_HELLO_DONE || htype == HT_CERTIFICATE_REQUEST) && state.WaitServerHelloDone?)
    || (htype == HT_SERVER_KEY_EXCHANGE && Hs(c).cipher != ECDHE_ECDSA_WITH_AES_128_CCM_8
        && (Hs(c).cipher == PSK_WITH_AES_128_CCM_8 ==> state.WaitServerHelloDone?))
    || (htype == HT_CLIENT_KEY_EXCHANGE && state.WaitClientKeyExchange?)
    || (htype == HT_FINISHED && state.WaitFinished?)
    || (htype == HT_CLIENT_HELLO && (state.Connected? || state.WaitClientHello?))
  }

  /** Any other message changes nothing: a HelloRequest is ignored, all else is answered with unexpected_message. */
  lemma UnexpectedRefused(env: Env, c: Ctx, role: Role, state: State, data: bytes)
    requires HasHs(c) && !Awaited(c, state, MsgType(data)) && !(MsgType(data) == HT_HELLO_REQUEST && state.Connected?)
    ensures HandleMessage(env, c, role, state, data)
         == R(c, if MsgType(data) == HT_HELLO_REQUEST then 0 else -(512 + 10))
  {
    hide MsgType, CheckHelloVerify, CheckServerHello, CheckKeyExchange, CheckHelloDone, CheckFinished, ServerFinish,
         CheckClientKeyExchange, VerifyPeer, AnswerClientHello, SendClientHello;
  }

  // ----- on the client -----

  /**
   * A ServerHello is taken exactly if it is awaited, has the version of DTLS 1.2
   * and selects the known cipher without compression, and its extensions are
   * fine unless there are none. The compression method may be missing.
   */
  lemma ServerHelloTakenExactly(env: Env, c: Ctx, state: State, data: bytes)
    requires HasHs(c) && |data| < 0x1_0000_0000
    ensures var at := 47 + HandshakeCodec.At(data, 46);
            HandleServerHello(env, c, state, data).err >= 0
            <==> (state.ClientHello? && U16(data, 12) == 0xfefd && |data| >= at + 2 && U16(data, at) == 0xC0A8
                  && HandshakeCodec.At(data, at + 2) == 0
                  && (|data| == at + 3 || |data| == at + 4 || env.extensionsOk(data, false)))
  {
    var at := 47 + HandshakeCodec.At(data, 46);
    if |data| < at + 2 {
      ShortRead(data, at);
    }
    LeftIs(|data| - 46); LeftIs(|data| - at - 3);
    hide U16, HandshakeCodec.At, Sub, Left;
  }

  lemma LeftIs(n: int)
    requires -0x1_0000_0000 <= n < 0x1_0000_0000
    ensures Left(n) == if n >= 0 then n else n + 0x1_0000_0000
  {
  }

  lemma ShortRead(data: bytes, at: nat)
    requires |data| < at + 2
    ensures U16(data, at) != 0xC0A8
  {
  }

  /** The ClientHello that answers a HelloVerifyRequest: with its cookie, and the old random if there is one. */
  function SecondHelloTo(env: Env, c: Ctx, data: bytes): bytes
    requires HasHs(c)
  {
    var n := HandshakeCodec.At(data, 14);
    HandshakeCodec.Message(HT_CLIENT_HELLO, Hs(c).mseqS,
                           ClientHelloBody(if n == 0 then env.random(c.draws) else Hs(c).clientRandom, Sub(data, 15, n)))
  }

  /** A HelloVerifyRequest is taken exactly if it is awaited, its cookie is not too long, and the answer goes out. */
  lemma HelloVerifyTakenExactly(env: Env, c: Ctx, state: State, data: bytes)
    requires HasHs(c) && P(c).slot0.Some?
    ensures var r, s := HandleHelloVerify(env, c, state, data), P(c).slot0.value;
            var good := state.ClientHello? && |data| >= 15 && HandshakeCodec.At(data, 14) <= 32;
            && (r.err >= 0 <==> good && env.sendResult(|c.out|) >= 0)
            && r.ctx.out == c.out + if !good then [] else
                 [Out(false, Record.CT_HANDSHAKE, s.epoch, s.rseq, s.suite, s.keyBlock, SecondHelloTo(env, c, data))]
  {
    hide HandshakeCodec.Message, ClientHelloBody, HandshakeCodec.At;
    var cookie := Sub(data, 15, HandshakeCodec.At(data, 14));
    hide Sub;
    assert c.out + [] == c.out;
  }

  /** The key for an identity that the pre-master secret has room for. (A callback reports errors as negative codes.) */
  predicate KeyFits(env: Env, identity: bytes)
  {
    match env.key(identity)
    case PskInfo(psk) => |psk| <= 18
    case NoPsk(code) => code >= 0
  }

  /** Keys are made exactly under the known cipher, with a key that fits; the next epoch is taken in any case. */
  lemma KeysMadeExactly(env: Env, c: Ctx)
    requires HasHs(c) && P(c).slot0.Some?
    ensures var r := CalculateKeyBlock(env, c);
            && (r.err >= 0 <==> Hs(c).cipher == PSK_WITH_AES_128_CCM_8 && KeyFits(env, Hs(c).identity))
            && r.ctx.peer.Some? && P(r.ctx).slot0 == P(c).slot0
            && P(r.ctx).slot1.Some? && P(r.ctx).slot1.value.epoch == (P(c).slot0.value.epoch + 1) % 0x1_0000
            && P(r.ctx).slot1.value.rseq == 0 && P(r.ctx).slot1.value.window.cseq == 0
            && (P(r.ctx).slot1.value.suite.PskCcm8? <==> r.err >= 0 && env.key(Hs(c).identity).PskInfo?)
  {
    hide Prf.MasterSecret, Prf.KeyBlockOf;
  }

  /**
   * Under the known cipher and with an identity, a ServerHelloDone is taken exactly
   * if it is awaited, no certificate was asked for, there is a key that fits, and
   * all three records of the answer go out.
   */
  lemma HelloDoneTakenExactly(env: Env, c: Ctx, state: State, data: bytes)
    requires HasHs(c) && P(c).slot0.Some? && Hs(c).cipher == PSK_WITH_AES_128_CCM_8
    requires env.identity(Hs(c).identity).PskInfo?
    ensures HandleServerHelloDone(env, c, state, data).err >= 0
            <==> state.WaitServerHelloDone? && !Hs(c).clientAuth && KeyFits(env, env.identity(Hs(c).identity).bytes)
                 && env.sendResult(|c.out|) >= 0 && env.sendResult(|c.out| + 1) >= 0 && env.sendResult(|c.out| + 2) >= 0
  {
    var c1, id := FeedHs(c, data), env.identity(Hs(c).identity).bytes;
    KeySent(env, c1);
    var r2 := SendClientKeyExchange(env, c1);
    KeysMadeExactly(env, r2.ctx);
    KeysQuiet(env, r2.ctx);
    var r3 := CalculateKeyBlock(env, r2.ctx);
    CcsThenFinished(env, r3.ctx);
    hide SendClientKeyExchange, CalculateKeyBlock, Send, SendFinished, SwitchParams;
  }

  lemma KeySent(env: Env, c: Ctx)
    requires HasHs(c) && P(c).slot0.Some? && Hs(c).cipher == PSK_WITH_AES_128_CCM_8 && env.identity(Hs(c).identity).PskInfo?
    ensures var r := SendClientKeyExchange(env, c);
            && r.err == env.sendResult(|c.out|) && |r.ctx.out| == |c.out| + 1
            && HasHs(r.ctx) && P(r.ctx).slot0.Some? && Hs(r.ctx).identity == env.identity(Hs(c).identity).bytes
            && Hs(r.ctx).cipher == Hs(c).cipher
  {
    hide HandshakeCodec.Message, IdentityBody;
  }

  lemma KeysQuiet(env: Env, c: Ctx)
    requires HasHs(c)
    ensures var r := CalculateKeyBlock(env, c); HasHs(r.ctx) && r.ctx.out == c.out
  {
    hide Prf.MasterSecret, Prf.KeyBlockOf;
  }

  lemma CcsThenFinished(env: Env, c: Ctx)
    requires HasHs(c)
    ensures var r := SendCcs(env, c); var c1 := SetPeer(r.ctx, SwitchParams(P(r.ctx)));
            && r.err == env.sendResult(|c.out|) && HasHs(c1)
            && SendFinished(env, c1, Record.Client).err == env.sendResult(|c.out| + 1)
  {
    hide HandshakeCodec.Message, Prf.FinishedData;
  }

  /** Having been asked for a certificate, the client sends nothing more when the server is done. */
  lemma CertificateStops(env: Env, c: Ctx, state: State, data: bytes, done: bytes)
    requires HasHs(c)
    ensures var r := HandleCertificateRequest(env, c, state, data);
            && (r.err >= 0 <==> state.WaitServerHelloDone? && env.certificateRequestOk(data))
            && (r.err >= 0 ==> HasHs(r.ctx) && r.ctx.out == c.out
                               && var d := HandleServerHelloDone(env, r.ctx, state, done); d.err == -1 && d.ctx.out == c.out)
  {
  }

  /** A PSK identity: a length, that many bytes, and nothing else. */
  predicate Identity(data: bytes) { |data| >= 14 && U16(data, 12) == |data| - 14 && |data| <= 14 + 32 }

  lemma IdentityIs(data: bytes)
    requires Identity(data)
    ensures Sub(data, 14, U16(data, 12)) == data[14..]
  {
    SubOf(data, 14, |data| - 14);
    hide U16, Sub;
    assert data[14..14 + (|data| - 14)] == data[14..];
  }

  /** Under the known cipher a hint is taken exactly if the ServerHelloDone is awaited and it is well formed. */
  lemma HintTakenExactly(env: Env, c: Ctx, state: State, data: bytes)
    requires HasHs(c) && Hs(c).cipher == PSK_WITH_AES_128_CCM_8
    ensures var r := HandleServerKeyExchange(env, c, state, data);
            && (r.err >= 0 <==> state.WaitServerHelloDone? && Identity(data))
            && (r.err >= 0 ==> HasHs(r.ctx) && Hs(r.ctx).identity == data[14..]
                               && Hs(r.ctx).transcript == Hs(c).transcript + data)
  {
    if Identity(data) {
      IdentityIs(data);
    }
    hide U16, Sub;
  }

  // ----- on the server -----

  /** Without a hint to give, or with an error from asking for one, the flight ends with the ServerHello. */
  lemma HintFails(env: Env, c: Ctx)
    requires HasHs(c) && env.hint.NoPsk? && env.sendResult(|c.out|) >= 0
    ensures var r := SendServerHelloMsgs(env, c); r.err == env.hint.code && |r.ctx.out| == |c.out| + 1
  {
    hide HandshakeCodec.Message, ServerHelloBody;
  }

  /** Likewise the identity of a client. */
  lemma IdentityTakenExactly(env: Env, c: Ctx, state: State, data: bytes)
    requires HasHs(c) && Hs(c).cipher == PSK_WITH_AES_128_CCM_8
    ensures var r := HandleClientKeyExchange(env, c, state, data);
            && (r.err >= 0 <==> state.WaitClientKeyExchange? && Identity(data))
            && (r.err >= 0 ==> HasHs(r.ctx) && Hs(r.ctx).identity == data[14..]
                               && Hs(r.ctx).transcript == Hs(c).transcript + data)
  {
    if Identity(data) {
      IdentityIs(data);
    }
    hide U16, Sub;
  }

  /** Where the cipher suites of a ClientHello begin: behind session id and cookie. */
  function SuitesAt(data: bytes): nat
  {
    var cookie := 47 + HandshakeCodec.At(data, 46);
    cookie + HandshakeCodec.At(data, cookie) + 1
  }

  /** The list of compression methods at this place offers null compression, and the extensions behind it are fine. */
  ghost predicate GoodEnd(env: Env, data: bytes, at: nat)
  {
    || |data| == at
    || (var n := HandshakeCodec.At(data, at);
        && |data| >= at + 1 + n && NullIn(data, at + 1, n)
        && (|data| < at + 1 + n + 2 || env.extensionsOk(data, true)))
  }

  /**
   * The parameters of a ClientHello are taken exactly if session id and cookie fit
   * into it and either the known cipher is offered and what follows is fine, or
   * the list of ciphers does not fit, which is let pass for a peer that has a
   * cipher already.
   */
  lemma ParametersTakenExactly(env: Env, c: Ctx, data: bytes)
    requires HasHs(c)
    ensures var at := SuitesAt(data); var n := U16(data, at);
            UpdateParameters(env, c, data).err >= 0
            <==> (|data| >= at
                  && if |data| < at + 2 + n then P(c).slot0.Some? && P(c).slot0.value.suite.PskCcm8?
                     else Offered(data, at + 2, n) && GoodEnd(env, data, at + 2 + n))
  {
    var at := SuitesAt(data);
    var n := U16(data, at);
    CipherFoundExactly(data, at + 2, n);
    var end := at + 2 + n;
    CompressionFoundExactly(data, end + 1, HandshakeCodec.At(data, end));
    hide U16, HandshakeCodec.At, Sub, FindCipher, FindCompression, Offered;
  }

  /** A failure is a warning for a connected peer and fatal otherwise. */
  lemma ParametersRefusedWith(env: Env, c: Ctx, data: bytes)
    requires HasHs(c) && UpdateParameters(env, c, data).err < 0
    ensures UpdateParameters(env, c, data).err == if P(c).state.Connected? then -(256 + 100) else -(2 * 256 + 40)
  {
    hide U16, HandshakeCodec.At, Sub, FindCipher, FindCompression;
  }
}
