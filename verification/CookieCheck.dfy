/** When a server makes a peer for a ClientHello that comes from nobody it knows (dtls_verify_peer). */
module CookieCheck {
  import opened Bytes
  import opened HandshakeCodec
  import opened Engine
  import opened Session
  import opened HelloBytes
  import Prf
  import Record
  import Replay

  /** Where a cookie can be made it can also be fetched, unless the version is not that of DTLS 1.2. */
  lemma FetchedUnlessOtherVersion(env: Env, data: bytes)
    requires CreateCookie(env, data).PskInfo?
    ensures GetCookie(data).NoPsk? <==> U16(data, HS_LENGTH) != Record.DTLS_VERSION
  {
    hide U16;
  }

  /**
   * A server without a peer makes one exactly if it can make a cookie and either
   * the client sent that cookie, or the version field is not that of DTLS 1.2,
   * so that no cookie is looked for, or sending the HelloVerifyRequest returned 0.
   */
  lemma PeerMadeExactlyIf(env: Env, c: Ctx, data: bytes)
    requires c.peer.None?
    ensures HandleClientHello(env, c, WaitClientHello, data).ctx.peer.Some?
       <==> CreateCookie(env, data).PskInfo?
            && (GetCookie(data) == CreateCookie(env, data)
                || U16(data, HS_LENGTH) != Record.DTLS_VERSION
                || env.sendResult(|c.out|) == 0)
  {
    var mine := CreateCookie(env, data);
    if mine.PskInfo? {
      FetchedUnlessOtherVersion(env, data);
    }
    hide CreateCookie, GetCookie, U16, UpdateParameters, SendServerHelloMsgs, Message;
  }

  /** The cookie is right, or not looked for, or sending the request for it returned 0. */
  predicate LetThrough(env: Env, c: Ctx, data: bytes)
  {
    && CreateCookie(env, data).PskInfo?
    && (GetCookie(data) == CreateCookie(env, data)
        || U16(data, HS_LENGTH) != Record.DTLS_VERSION
        || env.sendResult(|c.out|) == 0)
  }

  /** The HelloVerifyRequest: from a connected session under its parameters and next numbers, otherwise without a state. */
  function Request(env: Env, c: Ctx, state: State, data: bytes): Out
    requires CreateCookie(env, data).PskInfo? && (state.Connected? ==> c.peer.Some? && P(c).slot0.Some?)
  {
    var body := HelloVerifyBody(CreateCookie(env, data).bytes);
    if state.Connected? then
      var s, mseq := P(c).slot0.value, if HasHs(c) then Hs(c).mseqS else 0;
      Out(false, 22, s.epoch, s.rseq, s.suite, s.keyBlock, HandshakeCodec.Message(HT_HELLO_VERIFY_REQUEST, mseq, body))
    else
      Out(true, 22, 0, 0, Record.NullSuite, ZeroKeys, HandshakeCodec.Message(HT_HELLO_VERIFY_REQUEST, 0, body))
  }

  /** Exactly a ClientHello whose cookie was looked for and is wrong is answered with the right one. */
  lemma RequestedExactlyIf(env: Env, c: Ctx, state: State, data: bytes)
    requires state.Connected? ==> c.peer.Some? && P(c).slot0.Some?
    ensures var r, mine := VerifyPeer(env, c, state, data), CreateCookie(env, data);
            if mine.PskInfo? && U16(data, HS_LENGTH) == Record.DTLS_VERSION && GetCookie(data) != mine
            then r.ctx.out == c.out + [Request(env, c, state, data)] && r.err == env.sendResult(|c.out|)
            else r.ctx == c && r.err == if mine.NoPsk? then mine.code else 0
  {
    if CreateCookie(env, data).PskInfo? {
      FetchedUnlessOtherVersion(env, data);
    }
    hide CreateCookie, GetCookie, U16, HandshakeCodec.Message, HelloVerifyBody;
  }

  /** A peer as it is made for a ClientHello: a server with nothing but parameters of epoch 0. */
  predicate MadeForHello(p: Peer)
  {
    && p.role.Server? && p.hs.Some? && p.slot1.None? && p.log <= [GotClientHello]
    && p.slot0.Some? && p.slot0.value.epoch == 0 && p.slot0.value.suite.NullSuite? && p.slot0.value.window == Replay.Fresh()
  }

  /**
   * A ClientHello that comes in the clear to a connected session replaces the
   * peer under exactly the same condition; otherwise the session stays as it is
   * (section 4.2.8 of RFC 6347).
   */
  lemma PeerReplacedExactlyIf(env: Env, c: Ctx, data: bytes)
    requires c.peer.Some? && P(c).state.Connected?
    ensures var r := HandleClientHello(env, c, WaitClientHello, data);
            r.ctx.peer.Some? && if LetThrough(env, c, data) then MadeForHello(P(r.ctx)) else P(r.ctx) == P(c)
  {
    var mine := CreateCookie(env, data);
    if mine.PskInfo? {
      FetchedUnlessOtherVersion(env, data);
    }
    hide CreateCookie, GetCookie, U16, AnswerClientHello, Message, MsgSeq;
    var r := VerifyPeer(env, c, WaitClientHello, data);
    if LetThrough(env, c, data) {
      AnswerKeepsParameters(env, PeerForHello(r.ctx, WaitClientHello, data), data);
    }
  }

  /**
   * A ClientHello that a connected server reads, as in a renegotiation, is answered
   * under the same condition: by the same peer in the same epoch, which begins to
   * hash anew, and waits for the key exchange if parameters and flight are fine.
   */
  lemma AnsweredAgainExactlyIf(env: Env, c: Ctx, data: bytes)
    requires c.peer.Some? && P(c).state.Connected? && P(c).slot0.Some? && LetThrough(env, c, data)
    ensures var d := PeerForHello(VerifyPeer(env, c, Connected, data).ctx, Connected, data);
            var r := HandleClientHello(env, c, Connected, data);
            && r == AnswerClientHello(env, d, data)
            && P(d).slot0.Some? && P(d).slot0.value.epoch == P(c).slot0.value.epoch && P(d).slot1 == P(c).slot1
            && P(d).log == P(c).log && P(d).role == P(c).role && HasHs(d) && Hs(d).transcript == []
            && (r.err >= 0 ==> P(r.ctx).state.WaitClientKeyExchange? && P(r.ctx).log == P(c).log + [GotClientHello])
  {
    FetchedUnlessOtherVersion(env, data);
    hide CreateCookie, GetCookie, U16, AnswerClientHello, Message, MsgSeq;
  }

  lemma AnswerKeepsParameters(env: Env, c: Ctx, data: bytes)
    requires HasHs(c) && MadeForHello(P(c)) && P(c).log == []
    ensures var r := AnswerClientHello(env, c, data); r.ctx.peer.Some? && MadeForHello(P(r.ctx))
  {
    UpdateSends(env, c, data);
    var r1 := UpdateParameters(env, c, data);
    hide UpdateParameters, SendServerHelloMsgs;
    if r1.err >= 0 {
      FlightKeepsParameters(env, FeedHs(r1.ctx, data));
    }
  }

  lemma UpdateSends(env: Env, c: Ctx, data: bytes)
    requires HasHs(c)
    ensures var r := UpdateParameters(env, c, data);
            && HasHs(r.ctx) && P(r.ctx).role == P(c).role && P(r.ctx).log == P(c).log
            && P(r.ctx).slot0 == P(c).slot0 && P(r.ctx).slot1 == P(c).slot1
  {
    hide U16, Sub, HandshakeCodec.At, FindCipher, FindCompression;
  }

  lemma FlightKeepsParameters(env: Env, c: Ctx)
    requires HasHs(c) && MadeForHello(P(c)) && P(c).log == []
    ensures var r := SendServerHelloMsgs(env, c); HasHs(r.ctx) && MadeForHello(P(r.ctx)) && P(r.ctx).log == []
  {
    hide Message, ServerHelloBody, IdentityBody;
  }

  /**
   * For instance by a record: when nothing is left of epoch 0, a ClientHello in
   * the clear makes a connected session begin anew exactly if it is let through.
   */
  lemma ReplacedByRecord(env: Env, c: Ctx, packet: bytes)
    requires c.peer.Some? && P(c).state.Connected? && P(c).hs.None? && P(c).slot0.Some? && SecurityOf(P(c), 0).None?
    requires IsPacket(packet) && packet[0] == Record.CT_HANDSHAKE && Record.ReadHeader(packet).epoch == 0
    requires |packet| >= Record.RH_LENGTH + HS_LENGTH && packet[Record.RH_LENGTH] == HT_CLIENT_HELLO
    ensures var r := HandleDatagram(env, c, packet);
            r.ctx.peer.Some? && (MadeForHello(P(r.ctx)) <==> LetThrough(env, c, packet[Record.RH_LENGTH..]))
  {
    var data := packet[Record.RH_LENGTH..];
    assert SetPeer(c, P(c)) == c;
    assert MsgType(data) == HT_CLIENT_HELLO;
    PeerReplacedExactlyIf(env, c, data);
    hide HandleClientHello, LetThrough, Record.ReadHeader, MsgSeq, AlertFromErr, ExpectedEpoch;
    var r := HandleClientHello(env, c, WaitClientHello, data);
    var d := CountMessage(r);
    assert HandleHandshake(env, c, Record.Server, WaitClientHello, data) == d;
    CountKeeps(r);
    AlertKeeps(env, d.ctx, d.err);
    hide MadeForHello, CountMessage;
  }

  lemma CountKeeps(r: R)
    requires r.ctx.peer.Some?
    ensures CountMessage(r).ctx.peer.Some? && MadeForHello(P(CountMessage(r).ctx)) == MadeForHello(P(r.ctx))
  {
  }

  lemma AlertKeeps(env: Env, c: Ctx, err: int)
    requires c.peer.Some?
    ensures AlertFromErr(env, c, err).peer.Some? && MadeForHello(P(AlertFromErr(env, c, err))) == MadeForHello(P(c))
  {
  }

  // ----- another version -----

  /** This client's ClientHello without a cookie, under another version. */
  function OtherVersion(random: Random): bytes { HelloMessage(0, random, [])[HS_LENGTH + 1 := 0xff] }

  /** It gets a peer at once, with no cookie exchanged. */
  lemma OtherVersionGetsPeer(env: Env, c: Ctx, random: Random)
    requires c.peer.None?
    ensures var m := OtherVersion(random);
            && MsgType(m) == HT_CLIENT_HELLO && U16(m, HS_LENGTH) == 0xfeff
            && HandleClientHello(env, c, WaitClientHello, m).ctx.peer.Some?
  {
    var m := OtherVersion(random);
    ClientHelloReads(0, random, []);
    OtherVersionReads(random);
    CookieMade(env, m);
    hide HelloMessage, CreateCookie, GetCookie, HandleClientHello, OtherVersion, U16, MsgType;
    PeerMadeExactlyIf(env, c, m);
  }

  lemma OtherVersionReads(random: Random)
    ensures var m := OtherVersion(random);
            && |m| == HS_LENGTH + 42 && MsgType(m) == HT_CLIENT_HELLO && U16(m, HS_LENGTH) == 0xfeff
            && HandshakeCodec.At(m, HS_LENGTH + CH_LENGTH) == 0 && HandshakeCodec.At(m, HS_LENGTH + CH_LENGTH + 1) == 0
  {
    ClientHelloReads(0, random, []);
    hide HelloMessage;
    var m := HelloMessage(0, random, []);
    assert U16(m, HS_LENGTH) == 0xfefd;
  }

  lemma CookieMade(env: Env, m: bytes)
    requires |m| == HS_LENGTH + 42
    requires HandshakeCodec.At(m, HS_LENGTH + CH_LENGTH) == 0 && HandshakeCodec.At(m, HS_LENGTH + CH_LENGTH + 1) == 0
    ensures CreateCookie(env, m).PskInfo?
  {
    hide HandshakeCodec.At;
  }

  // ----- what a cookie stands for -----

  /** A ClientHello of the length its header says, with a session id and a cookie that fit. */
  predicate WholeHello(data: bytes)
  {
    && |data| >= 47 && U24(data, 9) == |data| - 12
    && 47 + data[46] < |data| && 48 + data[46] + data[47 + data[46]] <= |data|
  }

  /** The part up to the cookie: version, random and session id. */
  function Front(data: bytes): bytes
    requires WholeHello(data)
  {
    data[12..47 + data[46]]
  }

  /** The part behind the cookie: cipher suites, compression methods and extensions. */
  function Back(data: bytes): bytes
    requires WholeHello(data)
  {
    var session: nat := data[46];
    var cookie: nat := data[47 + session];
    data[48 + session + cookie..]
  }

  /** The cookie is the beginning of an HMAC, under the server's secret, over address, front and back. */
  lemma CookieIs(env: Env, data: bytes)
    requires WholeHello(data)
    ensures CreateCookie(env, data)
         == PskInfo(Prf.Hmac(env.hash, env.cookieSecret, env.address + Front(data) + Back(data))[..16])
  {
    var e: nat := CookieAt(data);
    var e2: nat := e + HandshakeCodec.At(data, e) + 1;
    SubOf(data, 12, e - 12);
    SubOf(data, e2, |data| - e2);
    assert data[12..12 + (e - 12)] == Front(data) && data[e2..e2 + (|data| - e2)] == Back(data);
    hide Prf.Hmac, Sub, U24;
  }

  /** What the HMAC is taken over tells apart addresses of one length and all of the Hello but its cookie. */
  lemma CookieBinds(address: bytes, data: bytes, address': bytes, data': bytes)
    requires WholeHello(data) && WholeHello(data') && |address| == |address'|
    requires address + Front(data) + Back(data) == address' + Front(data') + Back(data')
    ensures address == address' && Front(data) == Front(data') && Back(data) == Back(data')
  {
    hide U24;
    var n, s := |address|, address + Front(data) + Back(data);
    var s' := address' + Front(data') + Back(data');
    assert s[..n] == address && s'[..n] == address';
    assert s[n + 34] == Front(data)[34] == data[46] && s'[n + 34] == Front(data')[34] == data'[46];
    var k := n + |Front(data)|;
    assert s[n..k] == Front(data) && s'[n..k] == Front(data') && s[k..] == Back(data) && s'[k..] == Back(data');
  }
}
