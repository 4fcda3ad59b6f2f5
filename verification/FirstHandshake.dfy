/**
 * In every run, under whatever records arrive, a session is connected only
 * after the messages of a whole handshake were accepted in their order.
 */
module FirstHandshake {
  import opened Bytes
  import opened HandshakeCodec
  import opened Engine
  import opened Session
  import Prf
  import Record

  // ----- the order of the first handshake -----

  /** How far the messages accepted so far make up a first handshake; Complete is never left. */
  datatype Phase = Verifying | HelloAccepted | KeysAgreed | CcsAccepted | Complete | Astray

  function Advance(role: Role, ph: Phase, m: Milestone): Phase
  {
    match ph
    case Complete => Complete
    case Astray => Astray
    case KeysAgreed => if m.GotCcs? then CcsAccepted else Astray
    case CcsAccepted => if m.GotFinished? then Complete else Astray
    case Verifying =>
      if role.Server? then if m.GotClientHello? then HelloAccepted else Astray
      else if m.GotVerify? then Verifying
      else if m.GotServerHello? then HelloAccepted else Astray
    case HelloAccepted =>
      if role.Server? then if m.GotClientKeyExchange? then KeysAgreed else Astray
      else if m.GotKeyExchange? then HelloAccepted
      else if m.GotHelloDone? then KeysAgreed else Astray
  }

  function PhaseOf(role: Role, log: seq<Milestone>): Phase
  {
    if log == [] then Verifying else Advance(role, PhaseOf(role, log[..|log| - 1]), log[|log| - 1])
  }

  /**
   * What Complete means for a client: HelloVerifyRequests, then a ServerHello,
   * then at most key exchanges, then ServerHelloDone, ChangeCipherSpec, Finished.
   */
  ghost predicate ClientOrder(log: seq<Milestone>, h: nat, d: nat)
  {
    d + 2 < |log| && HelloUntil(log, h, d) && log[d] == GotHelloDone && log[d + 1] == GotCcs && log[d + 2] == GotFinished
  }

  ghost predicate HelloUntil(log: seq<Milestone>, h: nat, d: nat)
  {
    && h < d <= |log|
    && (forall i :: 0 <= i < h ==> log[i] == GotVerify)
    && log[h] == GotServerHello
    && (forall i :: h < i < d ==> log[i] == GotKeyExchange)
  }

  ghost predicate ServerOrder(log: seq<Milestone>)
  {
    [GotClientHello, GotClientKeyExchange, GotCcs, GotFinished] <= log
  }

  /** Where a client's log stands, in every phase before Complete. */
  ghost predicate ClientStands(log: seq<Milestone>, ph: Phase, h: nat, d: nat)
  {
    match ph
    case Verifying => forall i :: 0 <= i < |log| ==> log[i] == GotVerify
    case HelloAccepted => |log| == d && HelloUntil(log, h, d)
    case KeysAgreed => |log| == d + 1 && HelloUntil(log, h, d) && log[d] == GotHelloDone
    case CcsAccepted => |log| == d + 2 && HelloUntil(log, h, d) && log[d] == GotHelloDone && log[d + 1] == GotCcs
    case Complete => ClientOrder(log, h, d)
    case Astray => true
  }

  lemma {:induction false} ClientPhases(log: seq<Milestone>) returns (h: nat, d: nat)
    ensures ClientStands(log, PhaseOf(Record.Client, log), h, d)
    decreases |log|
  {
    if log == [] {
      h, d := 0, 0;
    } else {
      var n := |log| - 1;
      h, d := ClientPhases(log[..n]);
      match PhaseOf(Record.Client, log[..n])
      case Verifying => h, d := n, n + 1;
      case HelloAccepted => d := if log[n].GotHelloDone? then n else n + 1;
      case _ =>
    }
  }

  ghost predicate ServerStands(log: seq<Milestone>, ph: Phase)
  {
    match ph
    case Verifying => log == []
    case HelloAccepted => log == [GotClientHello]
    case KeysAgreed => log == [GotClientHello, GotClientKeyExchange]
    case CcsAccepted => log == [GotClientHello, GotClientKeyExchange, GotCcs]
    case Complete => ServerOrder(log)
    case Astray => true
  }

  lemma {:induction false} ServerPhases(log: seq<Milestone>)
    ensures ServerStands(log, PhaseOf(Record.Server, log))
    decreases |log|
  {
    if log != [] {
      var n := |log| - 1;
      ServerPhases(log[..n]);
      assert log == log[..n] + [log[n]];
    }
  }

  // ----- the invariant -----

  /**
   * Until the first handshake is complete, each state says what was accepted. A
   * key exchange message that comes while no cipher is chosen is accepted in
   * any state; the cipher then is not the known one, and the next step fails.
   */
  ghost predicate PeerInv(p: Peer)
  {
    var ph := PhaseOf(p.role, p.log);
    || ph.Complete?
    || (&& p.hs.Some?
        && match p.state
           case Init | Closing => true
           case ClientHello =>
             ph.Verifying? && p.role.Client? && p.hs.value.cipher == NULL_WITH_NULL_NULL && !p.hs.value.clientAuth
           case WaitServerHelloDone =>
             p.hs.value.cipher != PSK_WITH_AES_128_CCM_8 || p.hs.value.clientAuth || (ph.HelloAccepted? && p.role.Client?)
           case WaitClientKeyExchange => ph.HelloAccepted? && p.role.Server?
           case WaitChangeCipherSpec => ph.KeysAgreed?
           case WaitFinished => ph.CcsAccepted?
           case _ => false)
  }

  ghost predicate Inv(c: Ctx) { c.peer.Some? ==> PeerInv(P(c)) }

  /** dtls_alert_send_from_err will close the session. */
  predicate Alerts(err: int) { -768 < err < -256 || err == -1 }

  ghost predicate InvOrClosing(r: R)
  {
    Inv(r.ctx) || (HasHs(r.ctx) && Alerts(r.err))
  }

  lemma {:induction false} CompleteStays(role: Role, log: seq<Milestone>, log': seq<Milestone>)
    requires PhaseOf(role, log).Complete? && log <= log'
    ensures PhaseOf(role, log').Complete?
    decreases |log'|
  {
    if log == log' {
    } else {
      CompleteStays(role, log, log'[..|log'| - 1]);
    }
  }

  lemma PhaseAfter(role: Role, log: seq<Milestone>, m: Milestone)
    ensures PhaseOf(role, log + [m]) == Advance(role, PhaseOf(role, log), m)
  {
    assert (log + [m])[..|log|] == log;
  }

  // ----- message by message -----

  lemma HelloVerifyKeeps(env: Env, c: Ctx, data: bytes)
    requires HasHs(c) && PeerInv(P(c)) && !PhaseOf(P(c).role, P(c).log).Complete?
    ensures InvOrClosing(HandleHelloVerify(env, c, P(c).state, data))
  {
    hide CheckHelloVerify, PhaseOf;
    PhaseAfter(P(c).role, P(c).log, GotVerify);
  }

  lemma ServerHelloKeeps(env: Env, c: Ctx, data: bytes)
    requires HasHs(c) && PeerInv(P(c)) && !PhaseOf(P(c).role, P(c).log).Complete?
    ensures InvOrClosing(HandleServerHello(env, c, P(c).state, data))
  {
    hide PhaseOf, At, U16;
    PhaseAfter(P(c).role, P(c).log, GotServerHello);
  }

  lemma KeyExchangeKeeps(env: Env, c: Ctx, data: bytes)
    requires HasHs(c) && PeerInv(P(c)) && !PhaseOf(P(c).role, P(c).log).Complete?
    ensures InvOrClosing(HandleServerKeyExchange(env, c, P(c).state, data))
  {
    hide CheckKeyExchange, PhaseOf;
    PhaseAfter(P(c).role, P(c).log, GotKeyExchange);
  }

  lemma HelloDoneKeeps(env: Env, c: Ctx, data: bytes)
    requires HasHs(c) && PeerInv(P(c)) && !PhaseOf(P(c).role, P(c).log).Complete?
    ensures InvOrClosing(HandleServerHelloDone(env, c, P(c).state, data))
  {
    hide CheckHelloDone, PhaseOf;
    HelloDoneNeeds(env, c, data);
    PhaseAfter(P(c).role, P(c).log, GotHelloDone);
  }

  /** The client goes on only with the known cipher and without having been asked for a certificate. */
  lemma HelloDoneNeeds(env: Env, c: Ctx, data: bytes)
    requires HasHs(c)
    ensures CheckHelloDone(env, c, data).err >= 0 ==>
              Hs(c).cipher == PSK_WITH_AES_128_CCM_8 && !Hs(c).clientAuth
  {
    hide CalculateKeyBlock, SendCcs, SendFinished, SendHandshake;
  }

  lemma CertificateRequestKeeps(env: Env, c: Ctx, data: bytes)
    requires HasHs(c) && PeerInv(P(c)) && !PhaseOf(P(c).role, P(c).log).Complete?
    ensures InvOrClosing(HandleCertificateRequest(env, c, P(c).state, data))
  {
    hide PhaseOf;
  }

  lemma ClientKeyExchangeKeeps(env: Env, c: Ctx, data: bytes)
    requires HasHs(c) && PeerInv(P(c)) && !PhaseOf(P(c).role, P(c).log).Complete?
    ensures InvOrClosing(HandleClientKeyExchange(env, c, P(c).state, data))
  {
    hide CheckClientKeyExchange, PhaseOf;
    PhaseAfter(P(c).role, P(c).log, GotClientKeyExchange);
  }

  lemma FinishedKeeps(env: Env, c: Ctx, role: Role, data: bytes)
    requires HasHs(c) && PeerInv(P(c)) && !PhaseOf(P(c).role, P(c).log).Complete?
    ensures InvOrClosing(HandleFinished(env, c, role, P(c).state, data))
  {
    hide CheckFinished, ServerFinish, PhaseOf;
    PhaseAfter(P(c).role, P(c).log, GotFinished);
  }

  /** The state a message is handled in: the peer's own, or that of a new handshake for a connected peer. */
  ghost predicate Fits(c: Ctx, state: State)
  {
    if c.peer.None? then state.WaitClientHello?
    else state == P(c).state || (state.WaitClientHello? && P(c).state.Connected?)
  }

  lemma ClientHelloKeeps(env: Env, c: Ctx, state: State, data: bytes)
    requires Inv(c) && Fits(c, state) && (state.Connected? ==> c.peer.Some?)
    ensures InvOrClosing(HandleClientHello(env, c, state, data))
  {
    hide VerifyPeer, AnswerClientHello, MsgSeq, UpdateParameters, SendServerHelloMsgs;
    if c.peer.None? || state.Connected? || state.WaitClientHello? {
      var r := VerifyPeer(env, c, state, data);
      if c.peer.Some? {
        CompleteStays(P(c).role, P(c).log, P(r.ctx).log);
      }
      if r.err == 0 {
        var c1 := PeerForHello(r.ctx, state, data);
        var r1 := AnswerClientHello(env, c1, data);
        if c.peer.Some? && !state.WaitClientHello? {
          CompleteStays(P(c).role, P(c).log, P(r1.ctx).log);
        } else {
          assert P(c1).log == [] && P(c1).role == Record.Server && P(c1).state == Init;
          PhaseAfter(Record.Server, [], GotClientHello);
        }
      }
    }
  }

  lemma HelloRequestKeeps(env: Env, c: Ctx)
    requires c.peer.Some? && Inv(c) && P(c).state.Connected?
    ensures Inv(HandleHelloRequest(env, c).ctx)
  {
    var r := HandleHelloRequest(env, c);
    hide SendClientHello, PhaseOf;
    CompleteStays(P(c).role, P(c).log, P(r.ctx).log);
  }

  /** The same peer, with no accepted message forgotten. */
  ghost predicate Grows(c: Ctx, c': Ctx)
    requires c.peer.Some?
  {
    c'.peer.Some? && P(c').role == P(c).role && P(c).log <= P(c').log
  }

  lemma ByTypeGrows(env: Env, c: Ctx, state: State, data: bytes)
    requires HasHs(c) && MsgType(data) != HT_CLIENT_HELLO && MsgType(data) != HT_FINISHED
    requires state.Connected? ==> c.peer.Some?
    ensures Grows(c, HandleByType(env, c, state, data).ctx)
  {
    hide HandleHelloVerify, HandleServerHello, HandleServerKeyExchange, HandleServerHelloDone, HandleCertificateRequest,
         HandleClientKeyExchange, HandleClientHello, SendClientHello, MsgType;
  }

  lemma FinishedGrows(env: Env, c: Ctx, role: Role, state: State, data: bytes)
    requires HasHs(c)
    ensures Grows(c, HandleFinished(env, c, role, state, data).ctx)
  {
    hide ServerFinish, CheckFinished;
  }

  /** Once complete, nothing but a new peer takes the log away. */
  lemma CompleteKeeps(env: Env, c: Ctx, role: Role, state: State, data: bytes)
    requires HasHs(c) && PhaseOf(P(c).role, P(c).log).Complete? && CanHandle(c, state, MsgType(data))
    requires MsgType(data) != HT_CLIENT_HELLO
    ensures Inv(HandleMessage(env, c, role, state, data).ctx)
  {
    hide HandleByType, HandleFinished, MsgType, PhaseOf;
    var r := HandleMessage(env, c, role, state, data);
    if MsgType(data) == HT_FINISHED {
      FinishedGrows(env, c, role, state, data);
    } else {
      ByTypeGrows(env, c, state, data);
    }
    CompleteStays(P(c).role, P(c).log, P(r.ctx).log);
  }

  lemma ByTypeKeeps(env: Env, c: Ctx, state: State, data: bytes)
    requires Inv(c) && Fits(c, state) && CanHandle(c, state, MsgType(data)) && MsgType(data) != HT_FINISHED
    requires c.peer.Some? && MsgType(data) != HT_CLIENT_HELLO ==> !PhaseOf(P(c).role, P(c).log).Complete?
    requires state.Connected? || MsgType(data) != HT_HELLO_REQUEST
    ensures InvOrClosing(HandleByType(env, c, state, data))
  {
    hide HandleHelloVerify, HandleServerHello, HandleServerKeyExchange, HandleServerHelloDone, HandleCertificateRequest,
         HandleClientKeyExchange, HandleClientHello, HandleHelloRequest, MsgType, PhaseOf, InvOrClosing;
    var htype := MsgType(data);
    if htype == HT_HELLO_VERIFY_REQUEST {
      HelloVerifyKeeps(env, c, data);
    } else if htype == HT_SERVER_HELLO {
      ServerHelloKeeps(env, c, data);
    } else if htype == HT_SERVER_KEY_EXCHANGE {
      KeyExchangeKeeps(env, c, data);
    } else if htype == HT_SERVER_HELLO_DONE {
      HelloDoneKeeps(env, c, data);
    } else if htype == HT_CERTIFICATE_REQUEST {
      CertificateRequestKeeps(env, c, data);
    } else if htype == HT_CLIENT_KEY_EXCHANGE {
      ClientKeyExchangeKeeps(env, c, data);
    } else if htype == HT_CLIENT_HELLO {
      ClientHelloKeeps(env, c, state, data);
    } else {
      IntroInv(R(c, Fatal(UNEXPECTED_MESSAGE)));
    }
  }

  lemma IntroInv(r: R)
    requires Inv(r.ctx)
    ensures InvOrClosing(r)
  {
  }

  lemma CountKeeps(r: R)
    requires InvOrClosing(r)
    ensures InvOrClosing(CountMessage(r))
  {
    hide PhaseOf;
  }

  lemma MessageKeeps(env: Env, c: Ctx, role: Role, state: State, data: bytes)
    requires Inv(c) && Fits(c, state) && CanHandle(c, state, MsgType(data))
    ensures InvOrClosing(HandleMessage(env, c, role, state, data))
  {
    hide HandleFinished, HandleByType, MsgType, PhaseOf, InvOrClosing, CountMessage;
    var htype := MsgType(data);
    var r := HandleMessage(env, c, role, state, data);
    if htype == HT_HELLO_REQUEST {
      HelloRequestCounts(env, c, role, state, data);
    } else if htype != HT_CLIENT_HELLO && PhaseOf(P(c).role, P(c).log).Complete? {
      CompleteKeeps(env, c, role, state, data);
      IntroInv(r);
    } else if htype == HT_FINISHED {
      FinishedKeeps(env, c, role, data);
    } else {
      ByTypeKeeps(env, c, state, data);
      CountKeeps(HandleByType(env, c, state, data));
    }
  }

  lemma HelloRequestCounts(env: Env, c: Ctx, role: Role, state: State, data: bytes)
    requires Inv(c) && Fits(c, state) && CanHandle(c, state, MsgType(data)) && MsgType(data) == HT_HELLO_REQUEST
    ensures InvOrClosing(HandleMessage(env, c, role, state, data))
  {
    hide MsgType, PhaseOf, SendClientHello, CountMessage, HandleHelloRequest;
    if state.Connected? {
      HelloRequestKeeps(env, c);
      CountKeeps(HandleHelloRequest(env, c));
    }
  }

  // ----- becoming connected -----

  predicate FinishedMatches(env: Env, c: Ctx, data: bytes)
    requires HasHs(c)
  {
    && |data| >= HS_LENGTH + FIN_LENGTH
    && Sub(data, HS_LENGTH, FIN_LENGTH)
    == Prf.FinishedData(env.hash, Hs(c).master, P(c).role.Other(), Hs(c).transcript)
  }

  lemma ByTypeStaysUnconnected(env: Env, c: Ctx, state: State, data: bytes)
    requires HasHs(c) && !P(c).state.Connected? && CanHandle(c, state, MsgType(data)) && MsgType(data) != HT_FINISHED
    ensures var r := HandleByType(env, c, state, data); r.ctx.peer.Some? && !P(r.ctx).state.Connected?
  {
    hide HandleHelloVerify, HandleServerHello, HandleServerKeyExchange, HandleServerHelloDone, HandleCertificateRequest,
         HandleClientKeyExchange, SendClientHello, VerifyPeer, UpdateParameters, SendServerHelloMsgs, AnswerClientHello,
         MsgType;
  }

  /** The server's answer to a Finished goes out: its ChangeCipherSpec and its own Finished. */
  predicate AnswerGoesOut(env: Env, c: Ctx)
  {
    env.sendResult(|c.out|) >= 0 && env.sendResult(|c.out| + 1) >= 0
  }

  lemma ServerFinishSends(env: Env, c: Ctx, data: bytes)
    requires HasHs(c)
    ensures ServerFinish(env, c, data).err >= 0 <==> AnswerGoesOut(env, c)
  {
    hide Prf.FinishedData, HandshakeCodec.Message;
  }

  /**
   * One message connects a peer, in either role, exactly when it is a Finished,
   * awaited, whose data is that of the other side over the messages hashed so
   * far, and, on a server, the answer goes out. A Finished whose data is another
   * changes nothing and ends in a fatal alert.
   */
  lemma ConnectedByFinished(env: Env, c: Ctx, role: Role, state: State, data: bytes)
    requires HasHs(c) && !P(c).state.Connected? && CanHandle(c, state, MsgType(data))
    ensures var r := HandleMessage(env, c, role, state, data);
            && ((r.ctx.peer.Some? && P(r.ctx).state.Connected?) <==>
                (MsgType(data) == HT_FINISHED && state.WaitFinished? && FinishedMatches(env, c, data)
                 && (role.Server? ==> AnswerGoesOut(env, c))))
            && (MsgType(data) == HT_FINISHED && state.WaitFinished? && !FinishedMatches(env, c, data) ==>
                  r == R(c, Fatal(HANDSHAKE_FAILURE)))
  {
    hide HandleByType, MsgType, Prf.FinishedData, ServerFinish;
    if MsgType(data) != HT_FINISHED {
      ByTypeStaysUnconnected(env, c, state, data);
    } else {
      ServerFinishSends(env, c, data);
    }
  }

  // ----- one record, and whole runs -----

  lemma {:induction false} DrainKeeps(env: Env, c: Ctx, role: Role, res: int)
    requires Inv(c)
    ensures InvOrClosing(Drain(env, c, role, res))
    decreases if HasHs(c) then |Hs(c).queue| else 0
  {
    hide HandleMessage, MsgType, PeerInv;
    if HasHs(c) && FindQueued(Hs(c).queue, Hs(c).mseqR).Some? {
      var i := FindQueued(Hs(c).queue, Hs(c).mseqR).value;
      var c1, m := WithQueue(c, Without(Hs(c).queue, i)), Hs(c).queue[i];
      QueueKeeps(c, Without(Hs(c).queue, i));
      HandleMessageQueue(env, c1, role, P(c1).state, m);
      MessageKeeps(env, c1, role, P(c1).state, m);
      var r := HandleMessage(env, c1, role, P(c1).state, m);
      if r.err >= 0 {
        DrainKeeps(env, r.ctx, role, r.err);
      }
    }
  }

  lemma QueueKeeps(c: Ctx, queue: seq<bytes>)
    requires HasHs(c) && Inv(c)
    ensures Inv(WithQueue(c, queue))
  {
    hide PhaseOf;
  }

  lemma HandshakeKeeps(env: Env, c: Ctx, role: Role, state: State, data: bytes)
    requires Inv(c) && Fits(c, state) && (state.Connected? ==> c.peer.Some?)
    ensures InvOrClosing(HandleHandshake(env, c, role, state, data))
  {
    hide HandleMessage, MsgType, MsgSeq, PeerInv, Drain;
    if HasHs(c) {
      QueueKeeps(c, Hs(c).queue + [data]);
    }
    if |data| >= HS_LENGTH && (HasHs(c) || (Opening(MsgType(data)) && CanHandle(c, state, MsgType(data)))) {
      MessageKeeps(env, c, role, state, data);
      var r := HandleMessage(env, c, role, state, data);
      if r.err >= 0 {
        DrainKeeps(env, r.ctx, role, r.err);
      }
    }
  }

  lemma AlertKeeps(env: Env, r: R)
    requires InvOrClosing(r) && r.err < 0
    ensures Inv(AlertFromErr(env, r.ctx, r.err))
  {
    hide PhaseOf;
  }

  lemma DispatchHandshakeKeeps(env: Env, c: Ctx, packet: bytes, role: Role, state: State, data: bytes)
    requires IsPacket(packet) && Inv(c) && Fits(c, state) && (state.Connected? ==> c.peer.Some?)
    ensures Inv(DispatchHandshake(env, c, packet, role, state, data).ctx)
  {
    hide HandleHandshake, PeerInv, ExpectedEpoch, Record.ReadHeader, AlertFromErr;
    var other := c.peer.Some? && ExpectedEpoch(P(c), role, state) != Record.ReadHeader(packet).epoch;
    if !other || Attempt(P(c), packet) {
      var role', state' := if other then Record.Server else role, if other then WaitClientHello else state;
      HandshakeKeeps(env, c, role', state', data);
      var r := HandleHandshake(env, c, role', state', data);
      if r.err < 0 {
        AlertKeeps(env, r);
      }
    }
  }

  lemma CcsKeeps(env: Env, c: Ctx, data: bytes)
    requires Inv(c)
    ensures Inv(HandleCcs(env, c, data).ctx)
  {
    hide CalculateKeyBlock, PhaseOf;
    if c.peer.Some? {
      PhaseAfter(P(c).role, P(c).log, GotCcs);
      if PhaseOf(P(c).role, P(c).log).Complete? {
        CompleteStays(P(c).role, P(c).log, P(c).log + [GotCcs]);
      }
    }
  }

  lemma DispatchKeeps(env: Env, c: Ctx, packet: bytes, role: Role, state: State, data: bytes)
    requires IsPacket(packet) && Inv(c) && Fits(c, state) && (state.Connected? ==> c.peer.Some?)
    ensures Inv(Dispatch(env, c, packet, role, state, data).ctx)
  {
    hide DispatchHandshake, HandleCcs, PeerInv, AlertFromErr, SendAlert;
    DispatchHandshakeKeeps(env, c, packet, role, state, data);
    CcsKeeps(env, c, data);
    var r := HandleCcs(env, c, data);
    if r.err < 0 {
      AlertKeeps(env, r);
    }
  }

  /** Receiving a record changes epochs and windows only. */
  lemma ReceiveKeeps(env: Env, p: Peer, packet: bytes)
    requires IsPacket(packet)
    ensures var q := Receive(env, p, packet).0;
            q.role == p.role && q.state == p.state && q.hs == p.hs && q.log == p.log && q.sent == p.sent
  {
    hide Record.Open, Record.ReadHeader;
  }

  lemma RecordKeeps(env: Env, c: Ctx, packet: bytes)
    requires IsPacket(packet) && Inv(c)
    ensures Inv(HandleRecord(env, c, packet).ctx)
  {
    hide Dispatch, Receive, PhaseOf, AlertFromErr;
    if c.peer.None? {
      DispatchKeeps(env, c, packet, Record.Server, WaitClientHello, packet[Record.RH_LENGTH..]);
    } else {
      ReceiveKeeps(env, P(c), packet);
      var (p, got) := Receive(env, P(c), packet);
      var c1 := SetPeer(c, p);
      match got
      case Dropped =>
      case Plain(data) => DispatchKeeps(env, c1, packet, p.role, p.state, data);
      case Failed =>
        if Attempt(p, packet) {
          DispatchKeeps(env, c1, packet, Record.Server, WaitClientHello, packet[Record.RH_LENGTH..]);
        }
    }
  }

  lemma ActKeeps(env: Env, c: Ctx, a: Action)
    requires Inv(c)
    ensures Inv(Act(env, c, a))
  {
    hide HandleRecord, SendClientHello, SendHandshake, PhaseOf, Send;
    match a
    case Arrives(packet) =>
      if IsPacket(packet) {
        RecordKeeps(env, c, packet);
      }
    case _ =>
      assert PhaseOf(Record.Client, []) == Verifying by { EmptyLog(); }
  }

  lemma EmptyLog()
    ensures PhaseOf(Record.Client, []) == Verifying
  {
  }

  lemma {:induction false} RunKeeps(env: Env, actions: seq<Action>)
    ensures Inv(Run(env, actions))
    decreases |actions|
  {
    if actions != [] {
      RunKeeps(env, actions[..|actions| - 1]);
      ActKeeps(env, Run(env, actions[..|actions| - 1]), actions[|actions| - 1]);
    }
  }

  /**
   * Whatever arrives and whatever the application does, a client is connected
   * only after it accepted HelloVerifyRequests, a ServerHello, key exchanges,
   * ServerHelloDone, ChangeCipherSpec and Finished, in this order, before
   * anything else; and a server only after ClientHello, ClientKeyExchange,
   * ChangeCipherSpec and Finished.
   */
  lemma ConnectedAfterHandshake(env: Env, actions: seq<Action>)
    ensures var c := Run(env, actions);
            c.peer.Some? && P(c).state.Connected? ==> WholeHandshake(P(c))
  {
    hide Run, Inv, WholeHandshake;
    RunKeeps(env, actions);
    ConnectedOrder(Run(env, actions));
  }

  ghost predicate WholeHandshake(p: Peer)
  {
    if p.role.Client? then exists h, d :: ClientOrder(p.log, h, d) else ServerOrder(p.log)
  }

  lemma ConnectedOrder(c: Ctx)
    requires Inv(c)
    ensures c.peer.Some? && P(c).state.Connected? ==> WholeHandshake(P(c))
  {
    if c.peer.Some? && P(c).state.Connected? {
      hide PhaseOf;
      if P(c).role.Client? {
        var h, d := ClientPhases(P(c).log);
        assert ClientOrder(P(c).log, h, d);
      } else {
        ServerPhases(P(c).log);
      }
    }
  }
}
