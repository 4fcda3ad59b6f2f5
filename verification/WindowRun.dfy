/**
 * The replay windows over whole runs of a session: which records are handed on,
 * whatever else happens to the slots that hold the windows.
 */
module WindowRun {
  import opened Bytes
  import opened HandshakeCodec
  import opened Engine
  import opened Session
  import Prf
  import Record
  import Replay
  import Slots

  // ----- a window that is in use -----

  predicate Holds(s: Option<Security>, e: nat, w: Replay.State)
  {
    s.Some? && s.value.epoch == e && s.value.window == w
  }

  /** A slot for this epoch has this window, and has used it. */
  predicate Uses(c: Ctx, e: nat, w: Replay.State)
  {
    w != Replay.Fresh() && c.peer.Some? && (Holds(P(c).slot0, e, w) || Holds(P(c).slot1, e, w))
  }

  // ----- no handler touches a window: a slot is kept, dropped or made anew -----

  lemma SendUses(env: Env, c: Ctx, ctype: byte, payload: bytes, e: nat, w: Replay.State)
    requires c.peer.Some?
    ensures Uses(Send(env, c, ctype, payload).ctx, e, w) == Uses(c, e, w)
  {
  }

  lemma SendHandshakeUses(env: Env, c: Ctx, htype: byte, body: bytes, addHash: bool, e: nat, w: Replay.State)
    requires c.peer.Some? && (addHash ==> c.peer.value.hs.Some?)
    ensures Uses(SendHandshake(env, c, htype, body, addHash).ctx, e, w) == Uses(c, e, w)
  {
    hide Send, HandshakeCodec.Message;
    match P(c).hs
    case None => SendUses(env, c, Record.CT_HANDSHAKE, HandshakeCodec.Message(htype, 0, body), e, w);
    case Some(hs) =>
      var m := HandshakeCodec.Message(htype, hs.mseqS, body);
      var hs1 := hs.(mseqS := (hs.mseqS + 1) % 0x1_0000);
      SendUses(env, SetHs(c, if addHash then Feed(hs1, m) else hs1), Record.CT_HANDSHAKE, m, e, w);
  }

  lemma SendClientHelloUses(env: Env, c: Ctx, cookie: bytes, e: nat, w: Replay.State)
    requires HasHs(c)
    ensures Uses(SendClientHello(env, c, cookie).ctx, e, w) == Uses(c, e, w)
  {
    hide SendHandshake, ClientHelloBody;
    if |cookie| <= COOKIE_LENGTH_MAX {
      var hs := if cookie == [] then Hs(c).(clientRandom := env.random(c.draws)) else Hs(c).(transcript := []);
      var c1 := if cookie == [] then SetHs(c, hs).(draws := c.draws + 1) else SetHs(c, hs);
      SendHandshakeUses(env, c1, HT_CLIENT_HELLO, ClientHelloBody(hs.clientRandom, cookie), cookie != [], e, w);
    }
  }

  lemma ClientKeyUses(env: Env, c: Ctx, e: nat, w: Replay.State)
    requires HasHs(c)
    ensures Uses(SendClientKeyExchange(env, c).ctx, e, w) == Uses(c, e, w)
  {
    hide SendHandshake, IdentityBody;
    if env.identity(Hs(c).identity).PskInfo? {
      var id := env.identity(Hs(c).identity).bytes;
      SendHandshakeUses(env, SetHs(c, Hs(c).(identity := id)), HT_CLIENT_KEY_EXCHANGE, IdentityBody(id), true, e, w);
    }
  }

  lemma ServerHelloMsgsUse(env: Env, c: Ctx, e: nat, w: Replay.State)
    requires HasHs(c)
    ensures Uses(SendServerHelloMsgs(env, c).ctx, e, w) == Uses(c, e, w)
  {
    hide SendHandshake, ServerHelloBody, IdentityBody;
    var hs := Hs(c).(serverRandom := env.random(c.draws));
    var c1, body := SetHs(c, hs).(draws := c.draws + 1), ServerHelloBody(hs.serverRandom, hs.cipher);
    SendHandshakeUses(env, c1, HT_SERVER_HELLO, body, true, e, w);
    var r1 := SendHandshake(env, c1, HT_SERVER_HELLO, body, true);
    if r1.err >= 0 && env.hint.PskInfo? {
      var key := IdentityBody(env.hint.bytes);
      SendHandshakeUses(env, r1.ctx, HT_SERVER_KEY_EXCHANGE, key, true, e, w);
      var r2 := if env.hint.bytes == [] then r1 else SendHandshake(env, r1.ctx, HT_SERVER_KEY_EXCHANGE, key, true);
      SendHandshakeUses(env, r2.ctx, HT_SERVER_HELLO_DONE, [], true, e, w);
    }
  }

  lemma KeyBlockUses(env: Env, c: Ctx, e: nat, w: Replay.State)
    requires HasHs(c)
    ensures Uses(CalculateKeyBlock(env, c).ctx, e, w) ==> Uses(c, e, w)
  {
    hide Prf.MasterSecret, Prf.KeyBlockOf;
  }

  lemma SwitchUses(c: Ctx, e: nat, w: Replay.State)
    requires c.peer.Some?
    ensures Uses(SetPeer(c, SwitchParams(P(c))), e, w) == Uses(c, e, w)
  {
  }

  lemma SendFinishedUses(env: Env, c: Ctx, side: Role, e: nat, w: Replay.State)
    requires HasHs(c)
    ensures Uses(SendFinished(env, c, side).ctx, e, w) == Uses(c, e, w)
  {
    hide SendHandshake, Prf.FinishedData, Uses;
    SendHandshakeUses(env, c, HT_FINISHED, Prf.FinishedData(env.hash, Hs(c).master, side, Hs(c).transcript), true, e, w);
  }

  lemma HelloDoneUses(env: Env, c: Ctx, data: bytes, e: nat, w: Replay.State)
    requires HasHs(c)
    ensures Uses(CheckHelloDone(env, c, data).ctx, e, w) ==> Uses(c, e, w)
  {
    var c1 := FeedHs(c, data);
    assert Uses(c1, e, w) == Uses(c, e, w);
    hide Uses, SendClientKeyExchange, CalculateKeyBlock, Send, SendFinished, SwitchParams;
    ClientKeyUses(env, c1, e, w);
    var r2 := SendClientKeyExchange(env, c1);
    KeyBlockUses(env, r2.ctx, e, w);
    var r3 := CalculateKeyBlock(env, r2.ctx);
    SendUses(env, r3.ctx, Record.CT_CHANGE_CIPHER_SPEC, [1], e, w);
    var r4 := SendCcs(env, r3.ctx);
    SwitchUses(r4.ctx, e, w);
    var c5 := SetPeer(r4.ctx, SwitchParams(P(r4.ctx)));
    if c5.peer.value.hs.Some? {
      SendFinishedUses(env, c5, Record.Client, e, w);
    }
  }

  lemma ServerFinishUses(env: Env, c: Ctx, data: bytes, e: nat, w: Replay.State)
    requires HasHs(c)
    ensures Uses(ServerFinish(env, c, data).ctx, e, w) == Uses(c, e, w)
  {
    var c1 := FeedHs(c, data);
    assert Uses(c1, e, w) == Uses(c, e, w);
    hide Uses, Send, SendFinished;
    SendUses(env, c1, Record.CT_CHANGE_CIPHER_SPEC, [1], e, w);
    var r1 := SendCcs(env, c1);
    SwitchUses(r1.ctx, e, w);
    SendFinishedUses(env, SetPeer(r1.ctx, SwitchParams(P(r1.ctx))), Record.Server, e, w);
  }

  lemma FinishedUses(env: Env, c: Ctx, role: Role, state: State, data: bytes, e: nat, w: Replay.State)
    requires HasHs(c)
    ensures Uses(HandleFinished(env, c, role, state, data).ctx, e, w) ==> Uses(c, e, w)
  {
    hide ServerFinish, CheckFinished;
    ServerFinishUses(env, c, data, e, w);
  }

  lemma VerifyUses(env: Env, c: Ctx, state: State, data: bytes, e: nat, w: Replay.State)
    requires state.Connected? ==> c.peer.Some?
    ensures Uses(VerifyPeer(env, c, state, data).ctx, e, w) == Uses(c, e, w)
  {
    hide CreateCookie, GetCookie, SendHandshake, HandshakeCodec.Message;
    var mine := CreateCookie(env, data);
    if mine.PskInfo? && state.Connected? {
      SendHandshakeUses(env, c, HT_HELLO_VERIFY_REQUEST, HelloVerifyBody(mine.bytes), false, e, w);
    }
  }

  lemma UpdateUses(env: Env, c: Ctx, data: bytes, e: nat, w: Replay.State)
    requires HasHs(c)
    ensures Uses(UpdateParameters(env, c, data).ctx, e, w) == Uses(c, e, w)
  {
    hide At, U16, Sub, FindCipher, FindCompression;
  }

  lemma PeerForHelloUses(c: Ctx, state: State, data: bytes, e: nat, w: Replay.State)
    ensures Uses(PeerForHello(c, state, data), e, w) ==> Uses(c, e, w)
  {
    hide MsgSeq;
  }

  lemma AnswerUses(env: Env, c: Ctx, data: bytes, e: nat, w: Replay.State)
    requires HasHs(c)
    ensures Uses(AnswerClientHello(env, c, data).ctx, e, w) == Uses(c, e, w)
  {
    hide UpdateParameters, SendServerHelloMsgs;
    UpdateUses(env, c, data, e, w);
    var r1 := UpdateParameters(env, c, data);
    if r1.err >= 0 {
      ServerHelloMsgsUse(env, FeedHs(r1.ctx, data), e, w);
    }
  }

  lemma ClientHelloUses(env: Env, c: Ctx, state: State, data: bytes, e: nat, w: Replay.State)
    requires state.Connected? ==> c.peer.Some?
    ensures Uses(HandleClientHello(env, c, state, data).ctx, e, w) ==> Uses(c, e, w)
  {
    hide Uses, VerifyPeer, PeerForHello, AnswerClientHello;
    VerifyUses(env, c, state, data, e, w);
    var r := VerifyPeer(env, c, state, data);
    PeerForHelloUses(r.ctx, state, data, e, w);
    AnswerUses(env, PeerForHello(r.ctx, state, data), data, e, w);
  }

  lemma HelloRequestUses(env: Env, c: Ctx, e: nat, w: Replay.State)
    requires c.peer.Some?
    ensures Uses(HandleHelloRequest(env, c).ctx, e, w) == Uses(c, e, w)
  {
    hide SendClientHello;
    SendClientHelloUses(env, if P(c).hs.None? then SetHs(c, NewHandshake(0, 0)) else c, [], e, w);
  }

  lemma HelloVerifyUses(env: Env, c: Ctx, state: State, data: bytes, e: nat, w: Replay.State)
    requires HasHs(c)
    ensures Uses(HandleHelloVerify(env, c, state, data).ctx, e, w) == Uses(c, e, w)
  {
    hide SendClientHello;
    SendClientHelloUses(env, c, Sub(data, HS_LENGTH + HV_LENGTH, HandshakeCodec.At(data, HS_LENGTH + 2)), e, w);
  }

  lemma ServerHelloUses(env: Env, c: Ctx, state: State, data: bytes, e: nat, w: Replay.State)
    requires HasHs(c)
    ensures Uses(HandleServerHello(env, c, state, data).ctx, e, w) == Uses(c, e, w)
  {
    hide At, U16, Sub;
  }

  lemma ReadingUses(env: Env, c: Ctx, state: State, data: bytes, e: nat, w: Replay.State)
    requires HasHs(c)
    ensures Uses(HandleServerKeyExchange(env, c, state, data).ctx, e, w) == Uses(c, e, w)
    ensures Uses(HandleCertificateRequest(env, c, state, data).ctx, e, w) == Uses(c, e, w)
    ensures Uses(HandleClientKeyExchange(env, c, state, data).ctx, e, w) == Uses(c, e, w)
  {
    hide At, U16, Sub;
  }

  lemma ServerHelloDoneUses(env: Env, c: Ctx, state: State, data: bytes, e: nat, w: Replay.State)
    requires HasHs(c)
    ensures Uses(HandleServerHelloDone(env, c, state, data).ctx, e, w) ==> Uses(c, e, w)
  {
    hide CheckHelloDone;
    HelloDoneUses(env, c, data, e, w);
  }

  lemma ByTypeUses(env: Env, c: Ctx, state: State, data: bytes, e: nat, w: Replay.State)
    requires CanHandle(c, state, MsgType(data)) && MsgType(data) != HT_FINISHED
    ensures Uses(HandleByType(env, c, state, data).ctx, e, w) ==> Uses(c, e, w)
  {
    hide Uses, HandleHelloVerify, HandleServerHello, HandleServerKeyExchange, HandleServerHelloDone,
         HandleCertificateRequest, HandleClientKeyExchange, HandleClientHello, HandleHelloRequest, MsgType;
    if HasHs(c) {
      HelloVerifyUses(env, c, state, data, e, w);
      ServerHelloUses(env, c, state, data, e, w);
      ReadingUses(env, c, state, data, e, w);
      ServerHelloDoneUses(env, c, state, data, e, w);
    }
    ClientHelloUses(env, c, state, data, e, w);
    if c.peer.Some? {
      HelloRequestUses(env, c, e, w);
    }
  }

  lemma CountUses(r: R, e: nat, w: Replay.State)
    ensures Uses(CountMessage(r).ctx, e, w) == Uses(r.ctx, e, w)
  {
  }

  lemma MessageUses(env: Env, c: Ctx, role: Role, state: State, data: bytes, e: nat, w: Replay.State)
    requires CanHandle(c, state, MsgType(data))
    ensures Uses(HandleMessage(env, c, role, state, data).ctx, e, w) ==> Uses(c, e, w)
  {
    hide Uses, HandleByType, HandleFinished, MsgType, CountMessage;
    if MsgType(data) == HT_FINISHED {
      FinishedUses(env, c, role, state, data, e, w);
    } else {
      ByTypeUses(env, c, state, data, e, w);
      CountUses(HandleByType(env, c, state, data), e, w);
    }
  }

  lemma WithQueueUses(c: Ctx, queue: seq<bytes>, e: nat, w: Replay.State)
    requires HasHs(c)
    ensures Uses(WithQueue(c, queue), e, w) == Uses(c, e, w)
  {
  }

  lemma {:induction false} DrainUses(env: Env, c: Ctx, role: Role, res: int, e: nat, w: Replay.State)
    ensures Uses(Drain(env, c, role, res).ctx, e, w) ==> Uses(c, e, w)
    decreases if HasHs(c) then |Hs(c).queue| else 0
  {
    hide Uses, HandleMessage, MsgType;
    if HasHs(c) && FindQueued(Hs(c).queue, Hs(c).mseqR).Some? {
      var i := FindQueued(Hs(c).queue, Hs(c).mseqR).value;
      var c1, m := WithQueue(c, Without(Hs(c).queue, i)), Hs(c).queue[i];
      WithQueueUses(c, Without(Hs(c).queue, i), e, w);
      HandleMessageQueue(env, c1, role, P(c1).state, m);
      MessageUses(env, c1, role, P(c1).state, m, e, w);
      var r := HandleMessage(env, c1, role, P(c1).state, m);
      if r.err >= 0 {
        DrainUses(env, r.ctx, role, r.err, e, w);
      }
    }
  }

  lemma HandshakeUses(env: Env, c: Ctx, role: Role, state: State, data: bytes, e: nat, w: Replay.State)
    requires state.Connected? ==> c.peer.Some?
    ensures Uses(HandleHandshake(env, c, role, state, data).ctx, e, w) ==> Uses(c, e, w)
  {
    hide Uses, HandleMessage, MsgType, MsgSeq, Drain, WithQueue, Queueable;
    if HasHs(c) {
      WithQueueUses(c, Hs(c).queue + [data], e, w);
    }
    if CanHandle(c, state, MsgType(data)) {
      MessageUses(env, c, role, state, data, e, w);
      var r := HandleMessage(env, c, role, state, data);
      DrainUses(env, r.ctx, role, r.err, e, w);
    }
  }

  lemma AlertUses(env: Env, c: Ctx, err: int, e: nat, w: Replay.State)
    ensures Uses(AlertFromErr(env, c, err), e, w) == Uses(c, e, w)
  {
    hide Send;
    if c.peer.Some? {
      if -768 < err < -256 {
        SendUses(env, SetState(c, Closing), Record.CT_ALERT, [-err / 256, -err % 256], e, w);
      } else if err == -1 {
        SendUses(env, SetState(c, Closing), Record.CT_ALERT, [LEVEL_FATAL, INTERNAL_ERROR], e, w);
      }
    }
  }

  lemma CcsUses(env: Env, c: Ctx, data: bytes, e: nat, w: Replay.State)
    ensures Uses(HandleCcs(env, c, data).ctx, e, w) ==> Uses(c, e, w)
  {
    hide CalculateKeyBlock;
    if HasHs(c) {
      KeyBlockUses(env, c, e, w);
    }
  }

  lemma GotAlertUses(env: Env, c: Ctx, data: bytes, e: nat, w: Replay.State)
    ensures Uses(HandleAlert(env, c, data).ctx, e, w) ==> Uses(c, e, w)
  {
    hide Send;
  }

  lemma DispatchHandshakeUses(env: Env, c: Ctx, packet: bytes, role: Role, state: State, data: bytes,
                              e: nat, w: Replay.State)
    requires IsPacket(packet) && (state.Connected? ==> c.peer.Some?)
    ensures Uses(DispatchHandshake(env, c, packet, role, state, data).ctx, e, w) ==> Uses(c, e, w)
  {
    hide Uses, HandleHandshake, Attempt, ExpectedEpoch, Record.ReadHeader, AlertFromErr;
    HandshakeUses(env, c, role, state, data, e, w);
    HandshakeUses(env, c, Record.Server, WaitClientHello, data, e, w);
    var r, r' := HandleHandshake(env, c, role, state, data), HandleHandshake(env, c, Record.Server, WaitClientHello, data);
    AlertUses(env, r.ctx, r.err, e, w);
    AlertUses(env, r'.ctx, r'.err, e, w);
  }

  lemma DispatchUses(env: Env, c: Ctx, packet: bytes, role: Role, state: State, data: bytes, e: nat, w: Replay.State)
    requires IsPacket(packet) && (state.Connected? ==> c.peer.Some?)
    ensures Uses(Dispatch(env, c, packet, role, state, data).ctx, e, w) ==> Uses(c, e, w)
  {
    hide DispatchHandshake, HandleCcs, HandleAlert, AlertFromErr, SendAlert;
    DispatchHandshakeUses(env, c, packet, role, state, data, e, w);
    CcsUses(env, c, data, e, w);
    var r := HandleCcs(env, c, data);
    AlertUses(env, r.ctx, r.err, e, w);
    GotAlertUses(env, c, data, e, w);
  }

  // ----- one action -----

  /** The window of an epoch: fresh where there is no slot for it. */
  function Window(c: Ctx, e: nat): Replay.State
  {
    if c.peer.Some? && SecurityOf(P(c), e).Some? then SecurityOf(P(c), e).value.window else Replay.Fresh()
  }

  /** A record comes under an epoch that has a slot. */
  predicate ComesUnder(c: Ctx, a: Action, e: nat)
  {
    && a.Arrives? && IsPacket(a.packet) && Record.ReadHeader(a.packet).epoch == e
    && c.peer.Some? && SecurityOf(P(c), e).Some?
  }

  /** What the window is told of that record. */
  function Told(env: Env, c: Ctx, a: Action, e: nat): Replay.Packet
    requires ComesUnder(c, a, e)
  {
    var s := SecurityOf(P(c), e).value;
    var clear := Record.Open(env.aes, P(c).role, s.suite, s.keyBlock, a.packet);
    Replay.Packet(Record.ReadHeader(a.packet).seqnum, if clear.Rejected? then -1 else |clear.data|)
  }

  /** Where two slots have different epochs, the window in use is the one that is looked up. */
  lemma UsesWindow(c: Ctx, e: nat, w: Replay.State)
    requires Slots.AllSound(c)
    ensures Uses(c, e, w) <==> w != Replay.Fresh() && w == Window(c, e)
  {
  }

  lemma ReceiveUses(env: Env, c: Ctx, packet: bytes, e: nat, w: Replay.State)
    requires IsPacket(packet) && c.peer.Some? && Slots.AllSound(c)
    requires Uses(SetPeer(c, Receive(env, P(c), packet).0), e, w)
    ensures w == if ComesUnder(c, Arrives(packet), e)
                 then Replay.Next(env.machine, Window(c, e), Told(env, c, Arrives(packet), e)) else Window(c, e)
  {
    hide Record.Open, Record.ReadHeader, Replay.Next, Replay.VerdictOf, Slots.Increasing, Slots.AllBefore, FreeOther;
    var h := Record.ReadHeader(packet);
    if SecurityOf(P(c), h.epoch).Some? {
      NotDecryptedStays(env.machine, Window(c, h.epoch), Told(env, c, Arrives(packet), h.epoch));
      FreeOtherHolds(P(c));
    }
  }

  lemma NotDecryptedStays(m: Replay.Machine, w: Replay.State, p: Replay.Packet)
    ensures Replay.VerdictOf(m, w, p) != Replay.Decrypted ==> Replay.Next(m, w, p) == w
  {
  }

  lemma FreeOtherHolds(p: Peer)
    ensures FreeOther(p).slot0 == p.slot0 && (FreeOther(p).slot1 == p.slot1 || FreeOther(p).slot1.None?)
  {
  }

  lemma RecordUses(env: Env, c: Ctx, packet: bytes, e: nat, w: Replay.State)
    requires IsPacket(packet) && Uses(HandleRecord(env, c, packet).ctx, e, w)
    ensures c.peer.Some? && Uses(SetPeer(c, Receive(env, P(c), packet).0), e, w)
  {
    hide Dispatch, Receive, AlertFromErr, Record.ReadHeader;
    if c.peer.None? {
      DispatchUses(env, c, packet, Record.Server, WaitClientHello, packet[Record.RH_LENGTH..], e, w);
    } else {
      var (p, got) := Receive(env, P(c), packet);
      var c1 := SetPeer(c, p);
      match got
      case Dropped =>
      case Plain(data) => DispatchUses(env, c1, packet, p.role, p.state, data, e, w);
      case Failed =>
        if Attempt(p, packet) {
          DispatchUses(env, c1, packet, Record.Server, WaitClientHello, packet[Record.RH_LENGTH..], e, w);
        }
    }
  }

  lemma CallUses(env: Env, c: Ctx, a: Action, e: nat, w: Replay.State)
    requires !a.Arrives? && Uses(Act(env, c, a), e, w)
    ensures Uses(c, e, w)
  {
    hide SendClientHello, SendHandshake, Send;
    if c.peer.None? {
      var c1 := SetHs(SetPeer(c, NewPeer(Record.Client)), NewHandshake(0, 0));
      SendClientHelloUses(env, c1, [], e, w);
    } else {
      var c1 := SetHs(c, NewHandshake(0, 0));
      SendClientHelloUses(env, c1, [], e, w);
      SendHandshakeUses(env, c1, HT_HELLO_REQUEST, [], false, e, w);
      SendUses(env, c, Record.CT_ALERT, [LEVEL_FATAL, CLOSE_NOTIFY], e, w);
      match a
      case Writes(data) => SendUses(env, c, Record.CT_APPLICATION_DATA, data, e, w);
      case _ =>
    }
  }

  /**
   * Nothing but a record of its epoch moves a window on. Any other action leaves
   * it as it is, or there is no slot for the epoch afterwards, or a new one.
   */
  lemma OnlyRecordsMove(env: Env, c: Ctx, a: Action, e: nat)
    requires Slots.AllSound(c) && Slots.AllSound(Act(env, c, a))
    ensures var w := Window(Act(env, c, a), e);
            || w == Replay.Fresh()
            || w == if ComesUnder(c, a, e) then Replay.Next(env.machine, Window(c, e), Told(env, c, a, e)) else Window(c, e)
  {
    hide HandleRecord, Connect, Renegotiate, Close, Write, Receive, SecurityOf, Replay.Next, Told, Uses, Slots.AllSound,
         ComesUnder, IsPacket;
    var c' := Act(env, c, a);
    var w := Window(c', e);
    if w != Replay.Fresh() {
      UsesWindow(c', e, w);
      if a.Arrives? && IsPacket(a.packet) {
        RecordUses(env, c, a.packet, e, w);
        ReceiveUses(env, c, a.packet, e, w);
      } else if a.Arrives? {
        UsesWindow(c, e, w);
        ComesUnderPacket(c, a, e);
      } else {
        CallUses(env, c, a, e, w);
        UsesWindow(c, e, w);
        ComesUnderPacket(c, a, e);
      }
    }
  }

  lemma ComesUnderPacket(c: Ctx, a: Action, e: nat)
    ensures ComesUnder(c, a, e) ==> a.Arrives? && IsPacket(a.packet)
  {
  }

  // ----- whole runs -----

  /** Before the last action of a run. */
  ghost function Last(env: Env, actions: seq<Action>): Ctx
    requires actions != []
  {
    Run(env, actions[..|actions| - 1])
  }

  /** The last action brings a record of this epoch and number that is handed on, and is not empty. */
  ghost predicate LastRead(env: Env, actions: seq<Action>, e: nat, n: nat)
  {
    && actions != [] && ComesUnder(Last(env, actions), actions[|actions| - 1], e)
    && var p := Told(env, Last(env, actions), actions[|actions| - 1], e);
       p.number == n && Replay.Accepts(env.machine, Window(Last(env, actions), e), p)
  }

  ghost predicate InUse(env: Env, actions: seq<Action>, e: nat) { Window(Run(env, actions), e) != Replay.Fresh() }

  /** The numbers read under the parameters that the epoch has at the end of the run. */
  ghost function SeenIn(env: Env, actions: seq<Action>, e: nat): set<nat>
  {
    if actions == [] || !InUse(env, actions, e) then {}
    else
      var k := |actions| - 1;
      var seen := SeenIn(env, actions[..k], e);
      if ComesUnder(Last(env, actions), actions[k], e)
      then Replay.Seen(env.machine, Window(Last(env, actions), e), Told(env, Last(env, actions), actions[k], e), seen)
      else seen
  }

  /** The i-th action brings number n of epoch e, it is read, and the slot lives to the end of the run. */
  ghost predicate ReadSince(env: Env, actions: seq<Action>, e: nat, n: nat, i: nat)
  {
    i < |actions| && LastRead(env, actions[..i + 1], e, n) && forall k :: i < k <= |actions| ==> InUse(env, actions[..k], e)
  }

  lemma ReadSincePrefix(env: Env, actions: seq<Action>, e: nat, n: nat, i: nat)
    requires i + 1 < |actions|
    ensures var qs := actions[..|actions| - 1];
            ReadSince(env, actions, e, n, i) <==> ReadSince(env, qs, e, n, i) && InUse(env, actions, e)
  {
    hide InUse, LastRead;
    var qs := actions[..|actions| - 1];
    assert qs[..i + 1] == actions[..i + 1] && actions[..|actions|] == actions;
    forall k | i < k < |actions| ensures qs[..k] == actions[..k] {
    }
    if ReadSince(env, actions, e, n, i) {
      assert InUse(env, actions[..|actions|], e);
      forall k | i < k <= |qs| ensures InUse(env, qs[..k], e) {
        assert InUse(env, actions[..k], e);
      }
    }
    if ReadSince(env, qs, e, n, i) && InUse(env, actions, e) {
      forall k | i < k <= |actions| ensures InUse(env, actions[..k], e) {
        if k < |actions| {
          assert InUse(env, qs[..k], e);
        }
      }
    }
  }

  /** SeenIn holds exactly the numbers that were read since the slot was made. */
  lemma {:induction false} SeenMeansRead(env: Env, actions: seq<Action>, e: nat, n: nat)
    ensures n in SeenIn(env, actions, e) <==> exists i :: ReadSince(env, actions, e, n, i)
    decreases |actions|
  {
    hide InUse, LastRead, SeenIn, ReadSince;
    if exists i :: ReadSince(env, actions, e, n, i) {
      var i :| ReadSince(env, actions, e, n, i);
      ReadWithin(env, actions, e, n, i);
    }
    if actions == [] {
      NothingSeen(env, e);
    } else {
      var k := |actions| - 1;
      var qs := actions[..k];
      SeenMeansRead(env, qs, e, n);
      LastReadIs(env, actions, e, n);
      ReadAtTheEnd(env, actions, e, n);
      if i: nat :| ReadSince(env, qs, e, n, i) {
        ReadWithin(env, qs, e, n, i);
        ReadSincePrefix(env, actions, e, n, i);
      }
      if i: nat :| ReadSince(env, actions, e, n, i) {
        ReadWithin(env, actions, e, n, i);
        if i < k {
          ReadSincePrefix(env, actions, e, n, i);
        }
      }
    }
  }

  lemma NothingSeen(env: Env, e: nat)
    ensures SeenIn(env, [], e) == {}
  {
  }

  lemma ReadAtTheEnd(env: Env, actions: seq<Action>, e: nat, n: nat)
    requires actions != []
    ensures ReadSince(env, actions, e, n, |actions| - 1) <==> LastRead(env, actions, e, n) && InUse(env, actions, e)
  {
    hide InUse, LastRead;
    assert actions[..|actions|] == actions;
    if InUse(env, actions, e) {
      assert forall k :: |actions| - 1 < k <= |actions| ==> InUse(env, actions[..k], e);
    }
  }

  lemma ReadWithin(env: Env, actions: seq<Action>, e: nat, n: nat, i: nat)
    requires ReadSince(env, actions, e, n, i)
    ensures i < |actions| && InUse(env, actions, e)
  {
    hide InUse, LastRead;
    assert actions[..|actions|] == actions && InUse(env, actions[..|actions|], e);
  }

  lemma LastReadIs(env: Env, actions: seq<Action>, e: nat, n: nat)
    requires actions != []
    ensures var k := |actions| - 1;
            n in SeenIn(env, actions, e)
            <==> InUse(env, actions, e) && (n in SeenIn(env, actions[..k], e) || LastRead(env, actions, e, n))
  {
    hide InUse, ComesUnder, Told, Replay.Accepts, Window;
  }

  /** No record makes its window shift by more than the width. */
  ghost predicate ShiftsFit(env: Env, actions: seq<Action>, width: nat)
  {
    forall k :: 0 <= k < |actions| ==> FitsAt(env, actions, k, width)
  }

  ghost predicate FitsAt(env: Env, actions: seq<Action>, k: nat, width: nat)
    requires k < |actions|
  {
    var c := Run(env, actions[..k]);
    forall e :: ComesUnder(c, actions[k], e) ==> Replay.Within(Window(c, e), Told(env, c, actions[k], e), width)
  }

  lemma RunPrefix(env: Env, actions: seq<Action>, width: nat)
    requires actions != [] && Slots.EpochHasRoom(env, actions) && ShiftsFit(env, actions, width)
    ensures var qs := actions[..|actions| - 1]; Slots.EpochHasRoom(env, qs) && ShiftsFit(env, qs, width)
    ensures FitsAt(env, actions, |actions| - 1, width)
  {
    var qs := actions[..|actions| - 1];
    forall i | 0 <= i <= |qs| ensures qs[..i] == actions[..i] {
    }
    forall k | 0 <= k < |qs| ensures FitsAt(env, qs, k, width) {
      assert FitsAt(env, actions, k, width);
    }
  }

  lemma FitsUnder(env: Env, actions: seq<Action>, width: nat, e: nat)
    requires actions != [] && FitsAt(env, actions, |actions| - 1, width)
    ensures var c, a := Last(env, actions), actions[|actions| - 1];
            ComesUnder(c, a, e) ==> Replay.Within(Window(c, e), Told(env, c, a, e), width)
  {
    hide Replay.Within, Window, Told, ComesUnder;
  }

  /** In every run, the bits of every window say exactly which recent numbers were read since its slot was made. */
  lemma {:induction false} WindowInEveryRun(env: Env, width: nat, actions: seq<Action>, e: nat)
    requires Replay.Conforms(env.machine, width) && Slots.EpochHasRoom(env, actions) && ShiftsFit(env, actions, width)
    ensures Replay.Inv(Window(Run(env, actions), e), SeenIn(env, actions, e))
    ensures Replay.ZeroBit(Window(Run(env, actions), e))
    decreases |actions|
  {
    hide Window, Act, ComesUnder, Told, Replay.Inv, Replay.ZeroBit, Replay.Next, Replay.Seen, Replay.Conforms, Slots.AllSound,
         Slots.EpochHasRoom, ShiftsFit, FitsAt, Replay.Within;
    FreshInv();
    if actions == [] {
      assert Window(Run(env, actions), e) == Replay.Fresh() by { EmptyWindow(e); }
    } else {
      var k := |actions| - 1;
      var qs := actions[..k];
      RunPrefix(env, actions, width);
      WindowInEveryRun(env, width, qs, e);
      Slots.SlotsInEveryRun(env, qs);
      Slots.SlotsInEveryRun(env, actions);
      var c, a := Run(env, qs), actions[k];
      OnlyRecordsMove(env, c, a, e);
      if ComesUnder(c, a, e) {
        FitsUnder(env, actions, width, e);
        Replay.StepKeeps(env.machine, width, Window(c, e), Told(env, c, a, e), SeenIn(env, qs, e));
        Replay.ZeroBitStays(env.machine, width, Window(c, e), Told(env, c, a, e));
      }
    }
  }

  lemma FreshInv()
    ensures Replay.Inv(Replay.Fresh(), {}) && Replay.ZeroBit(Replay.Fresh())
  {
  }

  lemma EmptyWindow(e: nat)
    ensures Window(Empty(), e) == Replay.Fresh()
  {
  }

  // ----- what is read, and in which order -----

  /** The session drops a record that arrives. */
  predicate Drops(env: Env, c: Ctx, packet: bytes)
    requires IsPacket(packet) && c.peer.Some?
  {
    Receive(env, P(c), packet).1 == Dropped
  }

  lemma DropsByVerdict(env: Env, c: Ctx, packet: bytes, e: nat)
    requires ComesUnder(c, Arrives(packet), e)
    ensures var p := Told(env, c, Arrives(packet), e);
            && p.number == Record.ReadHeader(packet).seqnum
            && (Drops(env, c, packet) <==> Replay.VerdictOf(env.machine, Window(c, e), p) != Replay.Decrypted)
    ensures Drops(env, c, packet) ==> HandleDatagram(env, c, packet) == R(c, 0)
  {
    hide Record.Open, Record.ReadHeader, Replay.VerdictOf, Replay.Next, FreeOther, IsPacket;
  }

  /** What the invariants of the window make of a record. */
  lemma DropsByNumbers(env: Env, width: nat, c: Ctx, packet: bytes, e: nat, seen: set<nat>)
    requires Replay.Conforms(env.machine, width) && ComesUnder(c, Arrives(packet), e)
    requires Replay.Inv(Window(c, e), seen) && Replay.ZeroBit(Window(c, e))
    requires Replay.Within(Window(c, e), Told(env, c, Arrives(packet), e), width)
    ensures var n := Record.ReadHeader(packet).seqnum;
            && (n >= 1 ==> (Drops(env, c, packet) <==> n in seen || n + 64 < Window(c, e).cseq))
            && (n == 0 ==> (Drops(env, c, packet) <==> exists m :: m in seen && m >= 1))
    ensures Drops(env, c, packet) ==> HandleDatagram(env, c, packet) == R(c, 0)
  {
    hide Window, Drops, ComesUnder, Told, Record.ReadHeader, HandleDatagram, Replay.VerdictOf, Replay.Conforms, Replay.Within,
         IsPacket;
    DropsByVerdict(env, c, packet, e);
    var w, p := Window(c, e), Told(env, c, Arrives(packet), e);
    Replay.StepKeeps(env.machine, width, w, p, seen);
    if p.number == 0 {
      Replay.ZeroVerdict(env.machine, width, w, p);
      assert w.cseq > 0 ==> w.cseq in seen;
    }
  }

  /** A run and one more record: the invariants before it. */
  lemma BeforeTheRecord(env: Env, width: nat, actions: seq<Action>, packet: bytes, e: nat)
    requires var all := actions + [Arrives(packet)];
             Replay.Conforms(env.machine, width) && Slots.EpochHasRoom(env, all) && ShiftsFit(env, all, width)
    requires ComesUnder(Run(env, actions), Arrives(packet), e)
    ensures var c := Run(env, actions);
            && Replay.Inv(Window(c, e), SeenIn(env, actions, e)) && Replay.ZeroBit(Window(c, e))
            && Replay.Within(Window(c, e), Told(env, c, Arrives(packet), e), width)
    ensures |packet| >= Record.RH_LENGTH
  {
    ComesUnderPacket(Run(env, actions), Arrives(packet), e);
    assert |packet| >= Record.RH_LENGTH;
    hide SeenIn, Window, ComesUnder, Told, Replay.Inv, Replay.ZeroBit, Replay.Conforms, Replay.Within, Run,
         Slots.EpochHasRoom, ShiftsFit, FitsAt, IsPacket;
    var all := actions + [Arrives(packet)];
    assert all[..|all| - 1] == actions && all[|all| - 1] == Arrives(packet);
    RunPrefix(env, all, width);
    FitsUnder(env, all, width, e);
    WindowInEveryRun(env, width, actions, e);
  }

  /**
   * After every run, whatever order the records came in: a record with a number
   * other than 0 is dropped exactly if that number was read before under the same
   * parameters or lies more than 64 below the highest one. A dropped record
   * leaves the session as it is.
   */
  lemma DroppedExactlyIfSeen(env: Env, width: nat, actions: seq<Action>, packet: bytes, e: nat)
    requires var all := actions + [Arrives(packet)];
             Replay.Conforms(env.machine, width) && Slots.EpochHasRoom(env, all) && ShiftsFit(env, all, width)
    requires ComesUnder(Run(env, actions), Arrives(packet), e) && Record.ReadHeader(packet).seqnum >= 1
    ensures var c, n := Run(env, actions), Record.ReadHeader(packet).seqnum;
            && (Drops(env, c, packet)
                <==> (exists i :: ReadSince(env, actions, e, n, i)) || n + 64 < Window(c, e).cseq)
            && (Drops(env, c, packet) ==> HandleDatagram(env, c, packet) == R(c, 0))
  {
    hide ReadSince, SeenIn, Window, Drops, ComesUnder, Told, Record.ReadHeader, HandleDatagram, Replay.Inv, Replay.ZeroBit,
         Replay.Conforms, Replay.Within, Run, Slots.EpochHasRoom, ShiftsFit;
    BeforeTheRecord(env, width, actions, packet, e);
    DropsByNumbers(env, width, Run(env, actions), packet, e, SeenIn(env, actions, e));
    SeenMeansRead(env, actions, e, Record.ReadHeader(packet).seqnum);
  }

  /**
   * Number 0 is dropped exactly if any other number was read before: it has to
   * come first, and until then it may come any number of times.
   */
  lemma ZeroDroppedExactlyIfOvertaken(env: Env, width: nat, actions: seq<Action>, packet: bytes, e: nat)
    requires var all := actions + [Arrives(packet)];
             Replay.Conforms(env.machine, width) && Slots.EpochHasRoom(env, all) && ShiftsFit(env, all, width)
    requires ComesUnder(Run(env, actions), Arrives(packet), e) && Record.ReadHeader(packet).seqnum == 0
    ensures var c := Run(env, actions);
            && (Drops(env, c, packet) <==> exists n, i :: n >= 1 && ReadSince(env, actions, e, n, i))
            && (Drops(env, c, packet) ==> HandleDatagram(env, c, packet) == R(c, 0))
  {
    hide ReadSince, SeenIn, Window, Drops, ComesUnder, Told, Record.ReadHeader, HandleDatagram, Replay.Inv, Replay.ZeroBit,
         Replay.Conforms, Replay.Within, Run, Slots.EpochHasRoom, ShiftsFit;
    BeforeTheRecord(env, width, actions, packet, e);
    var seen := SeenIn(env, actions, e);
    DropsByNumbers(env, width, Run(env, actions), packet, e, seen);
    if m: nat :| m in seen && m >= 1 {
      SeenMeansRead(env, actions, e, m);
    }
    if n: nat, i: nat :| n >= 1 && ReadSince(env, actions, e, n, i) {
      SeenMeansRead(env, actions, e, n);
    }
  }

  lemma ReadIsNotDropped(env: Env, actions: seq<Action>, e: nat, n: nat)
    requires LastRead(env, actions, e, n)
    ensures var c, a := Last(env, actions), actions[|actions| - 1];
            && a.Arrives? && ComesUnder(c, a, e) && Record.ReadHeader(a.packet).seqnum == n
            && !Drops(env, c, a.packet)
  {
    var c, a := Last(env, actions), actions[|actions| - 1];
    ComesUnderPacket(c, a, e);
    hide ComesUnder, Told, Drops, Window, Record.ReadHeader, HandleDatagram, Run, Replay.VerdictOf;
    assert a == Arrives(a.packet);
    DropsByVerdict(env, c, a.packet, e);
  }

  /** So under the same parameters nothing is read twice but number 0. */
  lemma NeverReadTwice(env: Env, width: nat, actions: seq<Action>, e: nat, n: nat, i: nat)
    requires actions != [] && n >= 1
    requires Replay.Conforms(env.machine, width) && Slots.EpochHasRoom(env, actions) && ShiftsFit(env, actions, width)
    requires ReadSince(env, actions[..|actions| - 1], e, n, i)
    ensures !LastRead(env, actions, e, n)
  {
    hide ReadSince, LastRead, Window, Drops, Record.ReadHeader, HandleDatagram, Replay.Conforms, Run, Slots.EpochHasRoom,
         ShiftsFit, ComesUnder;
    var qs, a := actions[..|actions| - 1], actions[|actions| - 1];
    if LastRead(env, actions, e, n) {
      ReadIsNotDropped(env, actions, e, n);
      assert actions == qs + [Arrives(a.packet)];
      DroppedExactlyIfSeen(env, width, qs, a.packet, e);
    }
  }
}
