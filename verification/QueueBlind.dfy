/** No message handler looks at the reorder queue: it only carries it along. */
module QueueBlind {
  import opened Bytes
  import opened HandshakeCodec
  import opened Engine

  function WithQ(c: Ctx, queue: seq<bytes>): (r: Ctx)
    ensures HasHs(c) <==> HasHs(r)
    ensures c.peer.Some? <==> r.peer.Some?
  {
    if HasHs(c) then SetHs(c, Hs(c).(queue := queue)) else c
  }

  function RWithQ(r: R, queue: seq<bytes>): R { R(WithQ(r.ctx, queue), r.err) }

  lemma SendHandshakeBlind(env: Env, c: Ctx, htype: byte, body: bytes, addHash: bool, q: seq<bytes>)
    requires c.peer.Some? && (addHash ==> c.peer.value.hs.Some?)
    ensures SendHandshake(env, WithQ(c, q), htype, body, addHash)
         == RWithQ(SendHandshake(env, c, htype, body, addHash), q)
  {
  }

  lemma KeysBlind(env: Env, c: Ctx, q: seq<bytes>)
    requires HasHs(c)
    ensures CalculateKeyBlock(env, WithQ(c, q)) == RWithQ(CalculateKeyBlock(env, c), q)
  {
  }

  lemma SendFinishedBlind(env: Env, c: Ctx, side: Role, q: seq<bytes>)
    requires HasHs(c)
    ensures SendFinished(env, WithQ(c, q), side) == RWithQ(SendFinished(env, c, side), q)
  {
    hide SendHandshake;
    SendHandshakeBlind(env, c, HT_FINISHED, Prf.FinishedData(env.hash, Hs(c).master, side, Hs(c).transcript), true, q);
  }

  lemma SendClientHelloBlind(env: Env, c: Ctx, cookie: bytes, q: seq<bytes>)
    requires HasHs(c)
    ensures SendClientHello(env, WithQ(c, q), cookie) == RWithQ(SendClientHello(env, c, cookie), q)
  {
    hide SendHandshake, ClientHelloBody;
    if |cookie| <= COOKIE_LENGTH_MAX {
      var hs := if cookie == [] then Hs(c).(clientRandom := env.random(c.draws)) else Hs(c).(transcript := []);
      var c1 := if cookie == [] then SetHs(c, hs).(draws := c.draws + 1) else SetHs(c, hs);
      SendHandshakeBlind(env, c1, HT_CLIENT_HELLO, ClientHelloBody(hs.clientRandom, cookie), cookie != [], q);
    }
  }

  lemma HelloVerifyBlind(env: Env, c: Ctx, state: State, data: bytes, q: seq<bytes>)
    requires HasHs(c)
    ensures HandleHelloVerify(env, WithQ(c, q), state, data) == RWithQ(HandleHelloVerify(env, c, state, data), q)
  {
    hide SendClientHello;
    SendClientHelloBlind(env, c, Sub(data, HS_LENGTH + HV_LENGTH, At(data, HS_LENGTH + 2)), q);
  }

  lemma ServerHelloBlind(env: Env, c: Ctx, state: State, data: bytes, q: seq<bytes>)
    requires HasHs(c)
    ensures HandleServerHello(env, WithQ(c, q), state, data) == RWithQ(HandleServerHello(env, c, state, data), q)
  {
  }

  lemma ServerKeyExchangeBlind(env: Env, c: Ctx, state: State, data: bytes, q: seq<bytes>)
    requires HasHs(c)
    ensures HandleServerKeyExchange(env, WithQ(c, q), state, data)
         == RWithQ(HandleServerKeyExchange(env, c, state, data), q)
  {
  }

  lemma HelloDoneBlind(env: Env, c: Ctx, state: State, data: bytes, q: seq<bytes>)
    requires HasHs(c)
    ensures HandleServerHelloDone(env, WithQ(c, q), state, data) == RWithQ(HandleServerHelloDone(env, c, state, data), q)
  {
    var c1 := FeedHs(c, data);
    assert FeedHs(WithQ(c, q), data) == WithQ(c1, q);
    KeyExchangeBlind(env, c1, q);
    hide SendClientKeyExchange, CalculateKeyBlock, SendCcs, SendFinished;
    var r2 := SendClientKeyExchange(env, c1);
    KeysBlind(env, r2.ctx, q);
    var r3 := CalculateKeyBlock(env, r2.ctx);
    CcsBlind(env, r3.ctx, q);
    var r4 := SendCcs(env, r3.ctx);
    var c5 := SetPeer(r4.ctx, SwitchParams(P(r4.ctx)));
    SendFinishedBlind(env, c5, Record.Client, q);
    assert SetPeer(WithQ(r4.ctx, q), SwitchParams(P(WithQ(r4.ctx, q)))) == WithQ(c5, q);
  }

  lemma KeyExchangeBlind(env: Env, c: Ctx, q: seq<bytes>)
    requires HasHs(c)
    ensures SendClientKeyExchange(env, WithQ(c, q)) == RWithQ(SendClientKeyExchange(env, c), q)
  {
    hide SendHandshake;
    if env.identity(Hs(c).identity).PskInfo? {
      var id := env.identity(Hs(c).identity).bytes;
      SendHandshakeBlind(env, SetHs(c, Hs(c).(identity := id)), HT_CLIENT_KEY_EXCHANGE, IdentityBody(id), true, q);
    }
  }

  lemma CcsBlind(env: Env, c: Ctx, q: seq<bytes>)
    requires HasHs(c)
    ensures SendCcs(env, WithQ(c, q)) == RWithQ(SendCcs(env, c), q)
  {
  }

  lemma CertificateRequestBlind(env: Env, c: Ctx, state: State, data: bytes, q: seq<bytes>)
    requires HasHs(c)
    ensures HandleCertificateRequest(env, WithQ(c, q), state, data)
         == RWithQ(HandleCertificateRequest(env, c, state, data), q)
  {
  }

  lemma ClientKeyExchangeBlind(env: Env, c: Ctx, state: State, data: bytes, q: seq<bytes>)
    requires HasHs(c)
    ensures HandleClientKeyExchange(env, WithQ(c, q), state, data)
         == RWithQ(HandleClientKeyExchange(env, c, state, data), q)
  {
  }

  lemma FinishedBlind(env: Env, c: Ctx, role: Role, state: State, data: bytes, q: seq<bytes>)
    requires HasHs(c)
    ensures HandleFinished(env, WithQ(c, q), role, state, data) == RWithQ(HandleFinished(env, c, role, state, data), q)
  {
    hide SendCcs, SendFinished;
    assert CheckFinished(env, WithQ(c, q), data) == CheckFinished(env, c, data);
    var c1 := FeedHs(c, data);
    assert FeedHs(WithQ(c, q), data) == WithQ(c1, q);
    CcsBlind(env, c1, q);
    var r1 := SendCcs(env, c1);
    var c2 := SetPeer(r1.ctx, SwitchParams(P(r1.ctx)));
    SendFinishedBlind(env, c2, Record.Server, q);
    assert SetPeer(WithQ(r1.ctx, q), SwitchParams(P(WithQ(r1.ctx, q)))) == WithQ(c2, q);
  }

  lemma HelloRequestBlind(env: Env, c: Ctx, q: seq<bytes>)
    requires HasHs(c)
    ensures HandleHelloRequest(env, WithQ(c, q)) == RWithQ(HandleHelloRequest(env, c), q)
  {
    hide SendClientHello;
    SendClientHelloBlind(env, c, [], q);
  }

  lemma ClientHelloBlind(env: Env, c: Ctx, state: State, data: bytes, q: seq<bytes>)
    requires HasHs(c) && !state.WaitClientHello?
    ensures HandleClientHello(env, WithQ(c, q), state, data) == RWithQ(HandleClientHello(env, c, state, data), q)
  {
    VerifyBlind(env, c, state, data, q);
    hide VerifyPeer, AnswerClientHello;
    var r := VerifyPeer(env, c, state, data);
    var c1 := PeerForHello(r.ctx, state, data);
    assert PeerForHello(WithQ(r.ctx, q), state, data) == WithQ(c1, q);
    AnswerBlind(env, c1, data, q);
  }

  lemma VerifyBlind(env: Env, c: Ctx, state: State, data: bytes, q: seq<bytes>)
    requires HasHs(c)
    ensures VerifyPeer(env, WithQ(c, q), state, data) == RWithQ(VerifyPeer(env, c, state, data), q)
  {
    hide CreateCookie, GetCookie;
  }

  lemma AnswerBlind(env: Env, c: Ctx, data: bytes, q: seq<bytes>)
    requires HasHs(c)
    ensures AnswerClientHello(env, WithQ(c, q), data) == RWithQ(AnswerClientHello(env, c, data), q)
  {
    UpdateBlind(env, c, data, q);
    hide UpdateParameters, SendServerHelloMsgs;
    var r1 := UpdateParameters(env, c, data);
    var c2 := FeedHs(r1.ctx, data);
    assert FeedHs(WithQ(r1.ctx, q), data) == WithQ(c2, q);
    HelloMsgsBlind(env, c2, q);
  }

  lemma UpdateBlind(env: Env, c: Ctx, data: bytes, q: seq<bytes>)
    requires HasHs(c)
    ensures UpdateParameters(env, WithQ(c, q), data) == RWithQ(UpdateParameters(env, c, data), q)
  {
  }

  lemma HelloMsgsBlind(env: Env, c: Ctx, q: seq<bytes>)
    requires HasHs(c)
    ensures SendServerHelloMsgs(env, WithQ(c, q)) == RWithQ(SendServerHelloMsgs(env, c), q)
  {
    hide SendHandshake;
    var hs := Hs(c).(serverRandom := env.random(c.draws));
    var c1 := SetHs(c, hs).(draws := c.draws + 1);
    var body := ServerHelloBody(hs.serverRandom, hs.cipher);
    SendHandshakeBlind(env, c1, HT_SERVER_HELLO, body, true, q);
    var r1 := SendHandshake(env, c1, HT_SERVER_HELLO, body, true);
    if r1.err >= 0 && env.hint.PskInfo? {
      SendHandshakeBlind(env, r1.ctx, HT_SERVER_KEY_EXCHANGE, IdentityBody(env.hint.bytes), true, q);
      var r2 := if env.hint.bytes == [] then r1
                else SendHandshake(env, r1.ctx, HT_SERVER_KEY_EXCHANGE, IdentityBody(env.hint.bytes), true);
      SendHandshakeBlind(env, r2.ctx, HT_SERVER_HELLO_DONE, [], true, q);
    }
  }

  lemma ByTypeBlind(env: Env, c: Ctx, state: State, data: bytes, q: seq<bytes>)
    requires HasHs(c) && !state.WaitClientHello? && MsgType(data) != HT_FINISHED
    ensures HandleByType(env, WithQ(c, q), state, data) == RWithQ(HandleByType(env, c, state, data), q)
  {
    hide HandleHelloVerify, HandleServerHello, HandleServerKeyExchange, HandleServerHelloDone, HandleCertificateRequest,
         HandleClientKeyExchange, HandleClientHello, HandleHelloRequest, MsgType, WithQ;
    var htype := MsgType(data);
    if htype == HT_HELLO_VERIFY_REQUEST {
      HelloVerifyBlind(env, c, state, data, q);
    } else if htype == HT_SERVER_HELLO {
      ServerHelloBlind(env, c, state, data, q);
    } else if htype == HT_SERVER_KEY_EXCHANGE {
      ServerKeyExchangeBlind(env, c, state, data, q);
    } else if htype == HT_SERVER_HELLO_DONE {
      HelloDoneBlind(env, c, state, data, q);
    } else if htype == HT_CERTIFICATE_REQUEST {
      CertificateRequestBlind(env, c, state, data, q);
    } else if htype == HT_CLIENT_KEY_EXCHANGE {
      ClientKeyExchangeBlind(env, c, state, data, q);
    } else if htype == HT_CLIENT_HELLO {
      ClientHelloBlind(env, c, state, data, q);
    } else if htype == HT_HELLO_REQUEST {
      HelloRequestBlind(env, c, q);
    }
  }

  /** Handling a message with another reorder queue gives the same, with that other queue. */
  lemma HandleMessageBlind(env: Env, c: Ctx, role: Role, state: State, data: bytes, q: seq<bytes>)
    requires HasHs(c) && !state.WaitClientHello?
    ensures HandleMessage(env, WithQ(c, q), role, state, data) == RWithQ(HandleMessage(env, c, role, state, data), q)
  {
    hide HandleFinished, HandleByType, MsgType;
    if MsgType(data) == HT_FINISHED {
      FinishedBlind(env, c, role, state, data, q);
    } else {
      ByTypeBlind(env, c, state, data, q);
    }
  }
}
