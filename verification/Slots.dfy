/**
 * The two slots for security parameters (peer.h) in every run: the first is
 * never empty, two live ones have neighbouring epochs, and the records sent
 * carry epochs and sequence numbers that only go up.
 */
module Slots {
  import opened Bytes
  import opened HandshakeCodec
  import opened Engine
  import opened Session
  import FirstHandshake
  import Prf
  import Record

  // ----- the invariant -----

  predicate Before(a: (nat, nat), b: (nat, nat)) { a.0 < b.0 || (a.0 == b.0 && a.1 < b.1) }

  /** Each record sent comes after all the ones before it. */
  ghost predicate Increasing(sent: seq<(nat, nat)>)
  {
    forall i, j :: 0 <= i < j < |sent| ==> Before(sent[i], sent[j])
  }

  ghost predicate AllBefore(sent: seq<(nat, nat)>, next: (nat, nat))
  {
    forall i :: 0 <= i < |sent| ==> Before(sent[i], next)
  }

  ghost predicate Neighbours(p: Peer)
  {
    && p.slot0.Some? && p.slot0.value.epoch < 0x1_0000
    && (p.slot1.Some? ==> p.slot1.value.epoch == p.slot0.value.epoch + 1 || p.slot1.value.epoch + 1 == p.slot0.value.epoch)
  }

  ghost predicate Sound(p: Peer)
  {
    && Neighbours(p)
    && Increasing(p.sent) && AllBefore(p.sent, (p.slot0.value.epoch, p.slot0.value.rseq))
  }

  /** Looking an epoch up finds one slot at most. */
  lemma LookupIsUnambiguous(p: Peer, epoch: nat)
    requires Sound(p)
    ensures SecurityOf(p, epoch).Some? <==>
            (p.slot0.value.epoch == epoch) != (p.slot1.Some? && p.slot1.value.epoch == epoch)
    ensures SecurityOf(p, epoch).Some? ==> SecurityOf(p, epoch).value.epoch == epoch
  {
  }

  function Epoch(c: Ctx): nat
    requires c.peer.Some? && P(c).slot0.Some?
  {
    P(c).slot0.value.epoch
  }

  /** Only records were sent. */
  ghost predicate Steady(c: Ctx, c': Ctx)
  {
    c.peer.Some? && P(c).slot0.Some? ==>
      && c'.peer.Some? && P(c').slot0.Some? && Epoch(c') == Epoch(c) && P(c').slot1 == P(c).slot1
      && (Sound(P(c)) ==> Sound(P(c')))
  }

  // ----- sending -----

  lemma SendSteady(env: Env, c: Ctx, ctype: byte, payload: bytes)
    requires c.peer.Some?
    ensures Steady(c, Send(env, c, ctype, payload).ctx)
  {
  }

  lemma SendHandshakeSteady(env: Env, c: Ctx, htype: byte, body: bytes, addHash: bool)
    requires c.peer.Some? && (addHash ==> c.peer.value.hs.Some?)
    ensures Steady(c, SendHandshake(env, c, htype, body, addHash).ctx)
  {
    hide Send;
    match P(c).hs
    case None => SendSteady(env, c, Record.CT_HANDSHAKE, HandshakeCodec.Message(htype, 0, body));
    case Some(hs) =>
      var m := HandshakeCodec.Message(htype, hs.mseqS, body);
      var hs1 := hs.(mseqS := (hs.mseqS + 1) % 0x1_0000);
      var c1 := SetHs(c, if addHash then Feed(hs1, m) else hs1);
      SendSteady(env, c1, Record.CT_HANDSHAKE, m);
      SameSlots(c, c1);
  }

  lemma SameSlots(c: Ctx, c': Ctx)
    requires c.peer.Some? && c'.peer.Some?
    requires P(c').slot0 == P(c).slot0 && P(c').slot1 == P(c).slot1 && P(c').sent == P(c).sent
    ensures Steady(c, c')
  {
  }

  lemma SendClientHelloSteady(env: Env, c: Ctx, cookie: bytes)
    requires HasHs(c)
    ensures Steady(c, SendClientHello(env, c, cookie).ctx)
  {
    hide SendHandshake, ClientHelloBody, Increasing, AllBefore;
    if |cookie| <= COOKIE_LENGTH_MAX {
      var hs := if cookie == [] then Hs(c).(clientRandom := env.random(c.draws)) else Hs(c).(transcript := []);
      var c1 := if cookie == [] then SetHs(c, hs).(draws := c.draws + 1) else SetHs(c, hs);
      SendHandshakeSteady(env, c1, HT_CLIENT_HELLO, ClientHelloBody(hs.clientRandom, cookie), cookie != []);
      SameSlots(c, c1);
    } else {
      SameSlots(c, c);
    }
  }

  lemma SendClientKeyExchangeSteady(env: Env, c: Ctx)
    requires HasHs(c)
    ensures Steady(c, SendClientKeyExchange(env, c).ctx)
  {
    hide SendHandshake, Increasing, AllBefore;
    if env.identity(Hs(c).identity).PskInfo? {
      var id := env.identity(Hs(c).identity).bytes;
      SendHandshakeSteady(env, SetHs(c, Hs(c).(identity := id)), HT_CLIENT_KEY_EXCHANGE, IdentityBody(id), true);
      SameSlots(c, SetHs(c, Hs(c).(identity := id)));
    } else {
      SameSlots(c, c);
    }
  }

  lemma SendServerHelloMsgsSteady(env: Env, c: Ctx)
    requires HasHs(c)
    ensures Steady(c, SendServerHelloMsgs(env, c).ctx)
  {
    hide SendHandshake, Increasing, AllBefore;
    var hs := Hs(c).(serverRandom := env.random(c.draws));
    var c1 := SetHs(c, hs).(draws := c.draws + 1);
    var body := ServerHelloBody(hs.serverRandom, hs.cipher);
    SendHandshakeSteady(env, c1, HT_SERVER_HELLO, body, true);
    SameSlots(c, c1);
    var r1 := SendHandshake(env, c1, HT_SERVER_HELLO, body, true);
    if r1.err >= 0 && env.hint.PskInfo? {
      SendHandshakeSteady(env, r1.ctx, HT_SERVER_KEY_EXCHANGE, IdentityBody(env.hint.bytes), true);
      var r2 := if env.hint.bytes == [] then r1
                else SendHandshake(env, r1.ctx, HT_SERVER_KEY_EXCHANGE, IdentityBody(env.hint.bytes), true);
      SendHandshakeSteady(env, r2.ctx, HT_SERVER_HELLO_DONE, [], true);
    }
  }

  // ----- the next epoch -----

  /** New parameters for the next epoch go to the other slot; no number is used up. */
  lemma KeysNext(env: Env, c: Ctx)
    requires HasHs(c) && Sound(P(c)) && Epoch(c) < 0xFFFF
    ensures var p := P(CalculateKeyBlock(env, c).ctx);
            Sound(p) && p.slot0 == P(c).slot0 && p.slot1.Some? && p.slot1.value.epoch == Epoch(c) + 1
  {
  }

  /** Switching to the next epoch. */
  lemma SwitchNext(p: Peer)
    requires Sound(p) && p.slot0.value.epoch < 0xFFFF
    requires p.slot1.Some? && p.slot1.value.epoch == p.slot0.value.epoch + 1
    ensures Sound(SwitchParams(p))
  {
  }

  lemma FreeOtherSound(p: Peer)
    requires Sound(p)
    ensures Sound(FreeOther(p)) && FreeOther(p).slot0 == p.slot0
    ensures p.slot1.Some? && p.slot1.value.epoch == p.slot0.value.epoch + 1 ==> FreeOther(p) == p
  {
  }

  // ----- message by message -----

  lemma ServerHelloSteady(env: Env, c: Ctx, state: State, data: bytes)
    requires HasHs(c)
    ensures Steady(c, HandleServerHello(env, c, state, data).ctx)
  {
    hide Increasing, AllBefore, At, U16;
    SameSlots(c, HandleServerHello(env, c, state, data).ctx);
  }

  lemma HelloVerifySteady(env: Env, c: Ctx, state: State, data: bytes)
    requires HasHs(c)
    ensures Steady(c, HandleHelloVerify(env, c, state, data).ctx)
  {
    hide Increasing, AllBefore, SendClientHello;
    SameSlots(c, c);
    SendClientHelloSteady(env, c, Sub(data, HS_LENGTH + HV_LENGTH, HandshakeCodec.At(data, HS_LENGTH + 2)));
    var r := CheckHelloVerify(env, c, data);
    SameSlots(r.ctx, Log(r.ctx, GotVerify));
  }

  lemma KeyExchangeSteady(env: Env, c: Ctx, state: State, data: bytes)
    requires HasHs(c)
    ensures Steady(c, HandleServerKeyExchange(env, c, state, data).ctx)
  {
    hide Increasing, AllBefore;
    SameSlots(c, HandleServerKeyExchange(env, c, state, data).ctx);
  }

  lemma CertificateRequestSteady(env: Env, c: Ctx, state: State, data: bytes)
    requires HasHs(c)
    ensures Steady(c, HandleCertificateRequest(env, c, state, data).ctx)
  {
    hide Increasing, AllBefore;
    SameSlots(c, HandleCertificateRequest(env, c, state, data).ctx);
  }

  lemma ClientKeyExchangeSteady(env: Env, c: Ctx, state: State, data: bytes)
    requires HasHs(c)
    ensures Steady(c, HandleClientKeyExchange(env, c, state, data).ctx)
  {
    hide Increasing, AllBefore;
    SameSlots(c, HandleClientKeyExchange(env, c, state, data).ctx);
  }

  /** The client's last flight: the epoch moves up by one at most. */
  lemma HelloDoneSound(env: Env, c: Ctx, data: bytes)
    requires HasHs(c) && Sound(P(c)) && Epoch(c) < 0xFFFF
    ensures var c' := CheckHelloDone(env, c, data).ctx;
            c'.peer.Some? && Sound(P(c')) && Epoch(c') <= Epoch(c) + 1
  {
    hide SendClientKeyExchange, CalculateKeyBlock, SendCcs, SendFinished, Increasing, AllBefore;
    var c1 := FeedHs(c, data);
    SameSlots(c, c1);
    if !Hs(c1).clientAuth {
      SendClientKeyExchangeSteady(env, c1);
      var r2 := SendClientKeyExchange(env, c1);
      if r2.err >= 0 {
        KeysNext(env, r2.ctx);
        var r3 := CalculateKeyBlock(env, r2.ctx);
        CcsSteady(env, r3.ctx);
        var r4 := SendCcs(env, r3.ctx);
        if r3.err >= 0 && r4.err >= 0 {
          SwitchNext(P(r4.ctx));
          SendFinishedSteady(env, SetPeer(r4.ctx, SwitchParams(P(r4.ctx))), Record.Client);
        }
      }
    }
  }

  lemma CcsSteady(env: Env, c: Ctx)
    requires c.peer.Some?
    ensures Steady(c, SendCcs(env, c).ctx)
  {
    hide Send;
    SendSteady(env, c, Record.CT_CHANGE_CIPHER_SPEC, [1]);
  }

  lemma SendFinishedSteady(env: Env, c: Ctx, side: Role)
    requires HasHs(c)
    ensures Steady(c, SendFinished(env, c, side).ctx)
  {
    hide SendHandshake;
    SendHandshakeSteady(env, c, HT_FINISHED, Prf.FinishedData(env.hash, Hs(c).master, side, Hs(c).transcript), true);
  }

  ghost predicate NextWaits(p: Peer)
    requires p.slot0.Some?
  {
    p.slot1.Some? && p.slot1.value.epoch == p.slot0.value.epoch + 1
  }

  lemma FinishedSound(env: Env, c: Ctx, role: Role, state: State, data: bytes)
    requires HasHs(c) && Sound(P(c)) && Epoch(c) < 0xFFFF
    requires role.Server? && state.WaitFinished? ==> NextWaits(P(c))
    ensures var r := HandleFinished(env, c, role, state, data);
            r.ctx.peer.Some? && Sound(P(r.ctx)) && (r.err >= 0 ==> !HasHs(r.ctx) && P(r.ctx).state.Connected?)
  {
    hide CheckFinished, SendCcs, SendFinished, Increasing, AllBefore;
    SameSlots(c, c);
    if role.Server? && state.WaitFinished? {
      var c1 := FeedHs(c, data);
      SameSlots(c, c1);
      CcsSteady(env, c1);
      var r1 := SendCcs(env, c1);
      SwitchNext(P(r1.ctx));
      var c2 := SetPeer(r1.ctx, SwitchParams(P(r1.ctx)));
      SendFinishedSteady(env, c2, Record.Server);
    }
    var d := if role.Server? && state.WaitFinished? then ServerFinish(env, c, data).ctx else c;
    SameSlots(d, Log(SetPeer(d, P(d).(hs := None, state := Connected)), GotFinished));
  }

  lemma ClientHelloSound(env: Env, c: Ctx, state: State, data: bytes)
    requires c.peer.Some? ==> Sound(P(c))
    requires state.Connected? ==> c.peer.Some?
    ensures var c' := HandleClientHello(env, c, state, data).ctx;
            c'.peer.Some? ==> Sound(P(c')) && ((c.peer.Some? && Epoch(c') == Epoch(c)) || Epoch(c') == 0)
  {
    hide VerifyPeer, UpdateParameters, SendServerHelloMsgs, Increasing, AllBefore, MsgSeq, PeerForHello;
    var r := VerifyPeer(env, c, state, data);
    VerifySteady(env, c, state, data);
    var c1 := PeerForHello(r.ctx, state, data);
    HelloPeerSound(r.ctx, state, data);
    var r1 := UpdateParameters(env, c1, data);
    UpdateSteady(env, c1, data);
    if r1.err >= 0 {
      var c2 := FeedHs(r1.ctx, data);
      SameSlots(r1.ctx, c2);
      SendServerHelloMsgsSteady(env, c2);
      var r2 := SendServerHelloMsgs(env, c2);
      SameSlots(r2.ctx, Log(SetState(r2.ctx, WaitClientKeyExchange), GotClientHello));
    }
  }

  lemma VerifySteady(env: Env, c: Ctx, state: State, data: bytes)
    requires state.Connected? ==> c.peer.Some?
    ensures Steady(c, VerifyPeer(env, c, state, data).ctx)
  {
    hide CreateCookie, GetCookie, Increasing, AllBefore, SendHandshake, HandshakeCodec.Message;
    var mine := CreateCookie(env, data);
    if mine.PskInfo? && state.Connected? {
      SendHandshakeSteady(env, c, HT_HELLO_VERIFY_REQUEST, HelloVerifyBody(mine.bytes), false);
    }
    if c.peer.Some? {
      SameSlots(c, c);
    }
  }

  lemma UpdateSteady(env: Env, c: Ctx, data: bytes)
    requires HasHs(c)
    ensures Steady(c, UpdateParameters(env, c, data).ctx)
  {
    hide Increasing, AllBefore, At, U16, Sub, FindCipher, FindCompression;
    SameSlots(c, UpdateParameters(env, c, data).ctx);
  }

  lemma HelloPeerSound(c: Ctx, state: State, data: bytes)
    requires c.peer.Some? ==> Sound(P(c))
    ensures var c' := PeerForHello(c, state, data);
            Sound(P(c')) && ((c.peer.Some? && Epoch(c') == Epoch(c)) || Epoch(c') == 0)
  {
  }

  lemma HelloRequestSteady(env: Env, c: Ctx)
    requires c.peer.Some?
    ensures Steady(c, HandleHelloRequest(env, c).ctx)
  {
    hide SendClientHello, Increasing, AllBefore;
    var c1 := if P(c).hs.None? then SetHs(c, NewHandshake(0, 0)) else c;
    SameSlots(c, c1);
    SendClientHelloSteady(env, c1, []);
    var r := SendClientHello(env, c1, []);
    SameSlots(r.ctx, SetState(r.ctx, ClientHello));
  }

  // ----- any message -----

  /** Past the client's key exchange no handshake message is taken until ChangeCipherSpec. */
  ghost predicate Stopped(c: Ctx)
  {
    HasHs(c) && P(c).state.WaitChangeCipherSpec? && Hs(c).cipher == PSK_WITH_AES_128_CCM_8
  }

  lemma StoppedTakesNothing(env: Env, c: Ctx, role: Role, data: bytes)
    requires Stopped(c)
    ensures var r := HandleMessage(env, c, role, P(c).state, data);
            r.ctx == c && (r.err >= 0 ==> r == R(c, 0))
  {
    hide MsgType, VerifyPeer, CheckServerHello, CheckHelloVerify, CheckHelloDone, CheckClientKeyExchange, ServerFinish;
  }

  /** What holds whenever a message is about to be handled, as long as the epoch has room. */
  ghost predicate Ready(c: Ctx, role: Role)
  {
    c.peer.Some? ==>
      && Sound(P(c))
      && (Epoch(c) < 0xFFFF || Stopped(c))
      && (role.Server? && P(c).state.WaitFinished? ==> NextWaits(P(c)))
  }

  /** A handled message does not leave the peer waiting for Finished. */
  lemma LeavesWaitFinished(env: Env, c: Ctx, state: State, data: bytes)
    requires c.peer.Some? && FirstHandshake.Fits(c, state) && CanHandle(c, state, MsgType(data))
    requires MsgType(data) != HT_FINISHED && (MsgType(data) == HT_HELLO_REQUEST ==> state.Connected?)
    ensures var r := HandleByType(env, c, state, data);
            r.err >= 0 && r.ctx.peer.Some? ==> !P(r.ctx).state.WaitFinished?
  {
    hide MsgType, VerifyPeer, CheckServerHello, CheckHelloVerify, CheckHelloDone, CheckClientKeyExchange, CheckKeyExchange,
         AnswerClientHello, SendClientHello;
  }

  lemma HelloDoneStops(env: Env, c: Ctx, state: State, data: bytes)
    requires HasHs(c)
    ensures var r := HandleServerHelloDone(env, c, state, data); r.err >= 0 ==> Stopped(r.ctx)
  {
    hide CheckHelloDone;
    FirstHandshake.HelloDoneNeeds(env, c, data);
  }

  lemma ByTypeSound(env: Env, c: Ctx, state: State, data: bytes)
    requires c.peer.Some? ==> Sound(P(c)) && Epoch(c) < 0xFFFF
    requires FirstHandshake.Fits(c, state) && CanHandle(c, state, MsgType(data)) && MsgType(data) != HT_FINISHED
    ensures var r := HandleByType(env, c, state, data);
            r.ctx.peer.Some? ==> Sound(P(r.ctx)) && (r.err >= 0 ==> Epoch(r.ctx) < 0xFFFF || Stopped(r.ctx))
  {
    hide HandleHelloVerify, HandleServerHello, HandleServerKeyExchange, HandleServerHelloDone, HandleCertificateRequest,
         HandleClientKeyExchange, HandleClientHello, HandleHelloRequest, MsgType, Increasing, AllBefore, Stopped;
    var htype := MsgType(data);
    if htype == HT_HELLO_VERIFY_REQUEST {
      HelloVerifySteady(env, c, state, data);
    } else if htype == HT_SERVER_HELLO {
      ServerHelloSteady(env, c, state, data);
    } else if htype == HT_SERVER_KEY_EXCHANGE {
      KeyExchangeSteady(env, c, state, data);
    } else if htype == HT_SERVER_HELLO_DONE {
      HelloDoneStops(env, c, state, data);
      HelloDoneKeepsSound(env, c, state, data);
    } else if htype == HT_CERTIFICATE_REQUEST {
      CertificateRequestSteady(env, c, state, data);
    } else if htype == HT_CLIENT_KEY_EXCHANGE {
      ClientKeyExchangeSteady(env, c, state, data);
    } else if htype == HT_CLIENT_HELLO {
      ClientHelloSound(env, c, state, data);
    } else if htype == HT_HELLO_REQUEST {
      HelloRequestSteady(env, c);
    }
  }

  lemma HelloDoneKeepsSound(env: Env, c: Ctx, state: State, data: bytes)
    requires HasHs(c) && Sound(P(c)) && Epoch(c) < 0xFFFF
    ensures var c' := HandleServerHelloDone(env, c, state, data).ctx; c'.peer.Some? && Sound(P(c'))
  {
    hide CheckHelloDone, Increasing, AllBefore;
    HelloDoneSound(env, c, data);
    var r := CheckHelloDone(env, c, data);
    SameSlots(r.ctx, Log(SetState(r.ctx, WaitChangeCipherSpec), GotHelloDone));
  }

  lemma CountSame(r: R)
    ensures var r' := CountMessage(r);
            && r'.err == r.err && r'.ctx.peer.Some? == r.ctx.peer.Some?
            && (r.ctx.peer.Some? ==>
                  && P(r'.ctx).slot0 == P(r.ctx).slot0 && P(r'.ctx).slot1 == P(r.ctx).slot1
                  && P(r'.ctx).sent == P(r.ctx).sent && P(r'.ctx).state == P(r.ctx).state
                  && (Stopped(r.ctx) ==> Stopped(r'.ctx)))
  {
  }

  lemma MessageSound(env: Env, c: Ctx, role: Role, state: State, data: bytes)
    requires Ready(c, role) && FirstHandshake.Fits(c, state) && CanHandle(c, state, MsgType(data))
    requires HasHs(c) || MsgType(data) != HT_FINISHED
    ensures var r := HandleMessage(env, c, role, state, data);
            && (r.ctx.peer.Some? ==> Sound(P(r.ctx)))
            && (r.err >= 0 && HasHs(r.ctx) ==> Ready(r.ctx, role))
  {
    hide HandleByType, HandleFinished, MsgType, Increasing, AllBefore, CountMessage;
    if c.peer.Some? && Epoch(c) == 0xFFFF {
      assert state == P(c).state;
      StoppedTakesNothing(env, c, role, data);
    } else if MsgType(data) == HT_FINISHED {
      FinishedSound(env, c, role, state, data);
    } else if MsgType(data) != HT_HELLO_REQUEST || state.Connected? {
      ByTypeSound(env, c, state, data);
      if c.peer.Some? {
        LeavesWaitFinished(env, c, state, data);
      } else {
        NewPeerWaits(env, c, state, data);
      }
      CountSame(HandleByType(env, c, state, data));
    }
  }

  lemma NewPeerWaits(env: Env, c: Ctx, state: State, data: bytes)
    requires c.peer.None? && CanHandle(c, state, MsgType(data)) && MsgType(data) != HT_FINISHED
    ensures var r := HandleByType(env, c, state, data);
            r.err >= 0 && r.ctx.peer.Some? ==> !P(r.ctx).state.WaitFinished?
  {
    hide MsgType, VerifyPeer, UpdateParameters, SendServerHelloMsgs, AnswerClientHello;
  }

  // ----- one record, and whole runs -----

  ghost predicate AllSound(c: Ctx) { c.peer.Some? ==> Sound(P(c)) }

  lemma {:induction false} DrainSound(env: Env, c: Ctx, role: Role, res: int)
    requires AllSound(c) && (HasHs(c) ==> Ready(c, role))
    ensures AllSound(Drain(env, c, role, res).ctx)
    decreases if HasHs(c) then |Hs(c).queue| else 0
  {
    hide HandleMessage, MsgType, Increasing, AllBefore;
    if HasHs(c) && FindQueued(Hs(c).queue, Hs(c).mseqR).Some? {
      var i := FindQueued(Hs(c).queue, Hs(c).mseqR).value;
      var c1, m := WithQueue(c, Without(Hs(c).queue, i)), Hs(c).queue[i];
      HandleMessageQueue(env, c1, role, P(c1).state, m);
      MessageSound(env, c1, role, P(c1).state, m);
      var r := HandleMessage(env, c1, role, P(c1).state, m);
      if r.err >= 0 {
        DrainSound(env, r.ctx, role, r.err);
      }
    }
  }

  lemma HandshakeSound(env: Env, c: Ctx, role: Role, state: State, data: bytes)
    requires Ready(c, role) && FirstHandshake.Fits(c, state) && (state.Connected? ==> c.peer.Some?)
    ensures AllSound(HandleHandshake(env, c, role, state, data).ctx)
  {
    hide HandleMessage, MsgType, MsgSeq, Increasing, AllBefore, Drain;
    if |data| >= HS_LENGTH && (HasHs(c) || (Opening(MsgType(data)) && CanHandle(c, state, MsgType(data)))) {
      MessageSound(env, c, role, state, data);
      var r := HandleMessage(env, c, role, state, data);
      if r.err >= 0 {
        DrainSound(env, r.ctx, role, r.err);
      }
    }
  }

  lemma AlertSteady(env: Env, c: Ctx, err: int)
    requires AllSound(c)
    ensures AllSound(AlertFromErr(env, c, err))
  {
    hide Send, Increasing, AllBefore;
    if c.peer.Some? {
      SameSlots(c, SetState(c, Closing));
      if -768 < err < -256 {
        SendSteady(env, SetState(c, Closing), Record.CT_ALERT, [-err / 256, -err % 256]);
      } else if err == -1 {
        SendSteady(env, SetState(c, Closing), Record.CT_ALERT, [LEVEL_FATAL, INTERNAL_ERROR]);
      }
    }
  }

  lemma CcsSound(env: Env, c: Ctx, data: bytes)
    requires c.peer.Some? ==> Sound(P(c)) && Epoch(c) < 0xFFFF
    ensures AllSound(HandleCcs(env, c, data).ctx)
  {
    hide CalculateKeyBlock, Increasing, AllBefore;
    if HasHs(c) {
      KeysNext(env, c);
    }
  }

  /** A message that a server waiting for Finished takes came under the next epoch, so there is one. */
  ghost predicate Timely(c: Ctx, packet: bytes, role: Role, state: State)
    requires IsPacket(packet) && (c.peer.Some? ==> Sound(P(c)))
  {
    c.peer.Some? && role.Server? && P(c).state.WaitFinished? ==>
      (ExpectedEpoch(P(c), role, state) == Record.ReadHeader(packet).epoch ==> NextWaits(P(c)))
  }

  lemma DispatchHandshakeSound(env: Env, c: Ctx, packet: bytes, role: Role, state: State, data: bytes)
    requires IsPacket(packet) && FirstHandshake.Fits(c, state) && (state.Connected? ==> c.peer.Some?)
    requires c.peer.Some? ==> Sound(P(c)) && Epoch(c) < 0xFFFF
    requires Timely(c, packet, role, state)
    ensures AllSound(DispatchHandshake(env, c, packet, role, state, data).ctx)
  {
    hide HandleHandshake, Increasing, AllBefore, ExpectedEpoch, Record.ReadHeader, AlertFromErr;
    var other := c.peer.Some? && ExpectedEpoch(P(c), role, state) != Record.ReadHeader(packet).epoch;
    if !other || Attempt(P(c), packet) {
      var role', state' := if other then Record.Server else role, if other then WaitClientHello else state;
      HandshakeSound(env, c, role', state', data);
      var r := HandleHandshake(env, c, role', state', data);
      AlertSteady(env, r.ctx, r.err);
    }
  }

  lemma DispatchSound(env: Env, c: Ctx, packet: bytes, role: Role, state: State, data: bytes)
    requires IsPacket(packet) && FirstHandshake.Fits(c, state) && (state.Connected? ==> c.peer.Some?)
    requires c.peer.Some? ==> Sound(P(c)) && Epoch(c) < 0xFFFF
    requires Timely(c, packet, role, state)
    ensures AllSound(Dispatch(env, c, packet, role, state, data).ctx)
  {
    hide DispatchHandshake, HandleCcs, Increasing, AllBefore, AlertFromErr, SendAlert, ExpectedEpoch, Record.ReadHeader;
    DispatchHandshakeSound(env, c, packet, role, state, data);
    CcsSound(env, c, data);
    var r := HandleCcs(env, c, data);
    AlertSteady(env, r.ctx, r.err);
  }

  /** A record that could be read came under an epoch that has a slot. */
  lemma ReceiveSound(env: Env, p: Peer, packet: bytes)
    requires IsPacket(packet) && Sound(p) && p.slot0.value.epoch < 0xFFFF
    ensures var (q, got) := Receive(env, p, packet);
            && Sound(q) && q.slot0.value.epoch == p.slot0.value.epoch
            && (got.Plain? && Record.ReadHeader(packet).epoch == p.slot0.value.epoch + 1 ==> NextWaits(q))
  {
    FreeOtherSound(p);
    hide Record.Open, Record.ReadHeader, FreeOther, Increasing, AllBefore;
  }

  lemma RecordSound(env: Env, c: Ctx, packet: bytes)
    requires IsPacket(packet) && (c.peer.Some? ==> Sound(P(c)) && Epoch(c) < 0xFFFF)
    ensures AllSound(HandleRecord(env, c, packet).ctx)
  {
    hide Dispatch, Receive, Increasing, AllBefore, AlertFromErr, Record.ReadHeader;
    if c.peer.None? {
      DispatchSound(env, c, packet, Record.Server, WaitClientHello, packet[Record.RH_LENGTH..]);
    } else {
      ReceiveSound(env, P(c), packet);
      FirstHandshake.ReceiveKeeps(env, P(c), packet);
      var (p, got) := Receive(env, P(c), packet);
      var c1 := SetPeer(c, p);
      match got
      case Dropped =>
      case Plain(data) => DispatchSound(env, c1, packet, p.role, p.state, data);
      case Failed =>
        if Attempt(p, packet) {
          DispatchSound(env, c1, packet, Record.Server, WaitClientHello, packet[Record.RH_LENGTH..]);
        }
    }
  }

  lemma ConnectSound(env: Env, c: Ctx)
    requires c.peer.None?
    ensures AllSound(Connect(env, c).ctx)
  {
    hide SendClientHello;
    var c1 := SetHs(SetPeer(c, NewPeer(Record.Client)), NewHandshake(0, 0));
    SendClientHelloSteady(env, c1, []);
    var r := SendClientHello(env, c1, []);
    SameSlots(r.ctx, SetState(r.ctx, ClientHello));
  }

  lemma RenegotiateSound(env: Env, c: Ctx)
    requires AllSound(c)
    ensures AllSound(Renegotiate(env, c).ctx)
  {
    hide SendClientHello, SendHandshake, Increasing, AllBefore;
    if c.peer.Some? {
      var c1 := SetHs(c, NewHandshake(0, 0));
      SameSlots(c, c1);
      SendClientHelloSteady(env, c1, []);
      var r := SendClientHello(env, c1, []);
      SameSlots(r.ctx, SetState(r.ctx, ClientHello));
      SendHandshakeSteady(env, c1, HT_HELLO_REQUEST, [], false);
    }
  }

  lemma ActSound(env: Env, c: Ctx, a: Action)
    requires c.peer.Some? ==> Sound(P(c)) && Epoch(c) < 0xFFFF
    ensures AllSound(Act(env, c, a))
  {
    hide HandleRecord, Connect, Renegotiate, Send, Increasing, AllBefore;
    match a
    case Arrives(packet) =>
      if IsPacket(packet) {
        RecordSound(env, c, packet);
      }
    case Connects =>
      if c.peer.None? {
        ConnectSound(env, c);
      } else {
        RenegotiateSound(env, c);
      }
    case Renegotiates => RenegotiateSound(env, c);
    case Closes =>
      if c.peer.Some? {
        SendSteady(env, c, Record.CT_ALERT, [LEVEL_FATAL, CLOSE_NOTIFY]);
        var c1 := SendAlert(env, c, LEVEL_FATAL, CLOSE_NOTIFY);
        SameSlots(c1, SetState(c1, Closing));
      }
    case Writes(data) =>
      if c.peer.None? {
        ConnectSound(env, c);
      } else {
        SendSteady(env, c, Record.CT_APPLICATION_DATA, data);
      }
  }

  /** Before each action the epoch counter has room for another handshake. */
  ghost predicate EpochHasRoom(env: Env, actions: seq<Action>)
  {
    forall i :: 0 <= i < |actions| ==>
                  var c := Run(env, actions[..i]);
                  c.peer.Some? && P(c).slot0.Some? ==> P(c).slot0.value.epoch < 0xFFFF
  }

  /**
   * In every run, as long as the epoch counter does not wrap: slot 0 holds
   * parameters, the epoch of a live slot 1 differs from its epoch by one, and
   * the (epoch, sequence number) pairs of the records sent strictly increase.
   */
  lemma {:induction false} SlotsInEveryRun(env: Env, actions: seq<Action>)
    requires EpochHasRoom(env, actions)
    ensures var c := Run(env, actions);
            c.peer.Some? ==>
              && P(c).slot0.Some?
              && (P(c).slot1.Some? ==> var e0, e1 := P(c).slot0.value.epoch, P(c).slot1.value.epoch; e1 == e0 + 1 || e0 == e1 + 1)
              && Increasing(P(c).sent)
    ensures AllSound(Run(env, actions))
    decreases |actions|
  {
    if actions != [] {
      var n := |actions| - 1;
      forall i | 0 <= i < n ensures actions[..n][..i] == actions[..i] {
      }
      assert EpochHasRoom(env, actions[..n]);
      SlotsInEveryRun(env, actions[..n]);
      ActSound(env, Run(env, actions[..n]), actions[n]);
    }
  }
}
