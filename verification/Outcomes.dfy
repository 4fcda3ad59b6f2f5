/**
 * What becomes of a session: which alert goes out for which error, when a record
 * makes the peer go away, and what the calls of the application do.
 */
module Outcomes {
  import opened Bytes
  import opened HandshakeCodec
  import opened Engine
  import opened Session
  import FirstHandshake
  import Prf
  import Record

  // ----- alerts -----

  /** One more record, under slot 0 and its next number. */
  predicate SentOne(c: Ctx, c': Ctx, ctype: byte, payload: bytes)
  {
    && c.peer.Some? && P(c).slot0.Some?
    && var s := P(c).slot0.value;
       c'.out == c.out + [Out(false, ctype, s.epoch, s.rseq, s.suite, s.keyBlock, payload)]
       && c'.peer.Some? && P(c').slot0 == Some(s.(rseq := s.rseq + 1)) && P(c').slot1 == P(c).slot1
       && P(c').hs == P(c).hs && P(c').role == P(c).role && P(c').log == P(c).log
  }

  lemma Sends(env: Env, c: Ctx, ctype: byte, payload: bytes)
    requires c.peer.Some? && P(c).slot0.Some?
    ensures var r := Send(env, c, ctype, payload);
            SentOne(c, r.ctx, ctype, payload) && P(r.ctx).state == P(c).state && r.err == env.sendResult(|c.out|)
  {
  }

  /** An alert goes out, and the session is closing. */
  predicate Alerted(c: Ctx, c': Ctx, level: byte, desc: byte)
  {
    SentOne(c, c', Record.CT_ALERT, [level, desc]) && P(c').state.Closing?
  }

  /**
   * An error names its alert: level and description, except for a warning with
   * description 0; -1 stands for a fatal internal error. Anything else changes
   * nothing.
   */
  lemma AlertExactly(env: Env, c: Ctx, err: int)
    requires c.peer.Some? && P(c).slot0.Some?
    ensures forall level: byte, desc: byte ::
              err == -(256 * level + desc) && ((level == 1 && desc > 0) || level == 2) ==>
                Alerted(c, AlertFromErr(env, c, err), level, desc)
    ensures err == -1 ==> Alerted(c, AlertFromErr(env, c, err), 2, 80)
    ensures err >= 0 || err <= -768 || -256 <= err < -1 ==> AlertFromErr(env, c, err) == c
  {
    hide Send;
    if err == -1 {
      Sends(env, SetState(c, Closing), Record.CT_ALERT, [2, 80]);
    }
    forall level: byte, desc: byte | err == -(256 * level + desc) && ((level == 1 && desc > 0) || level == 2)
      ensures Alerted(c, AlertFromErr(env, c, err), level, desc)
    {
      Sends(env, SetState(c, Closing), Record.CT_ALERT, [level, desc]);
      assert -err / 256 == level && -err % 256 == desc;
    }
  }

  /** The alert of each error the engine raises has just its description, fatal or as a warning. */
  lemma ErrorsName(env: Env, c: Ctx, desc: byte)
    requires c.peer.Some? && P(c).slot0.Some?
    ensures Alerted(c, AlertFromErr(env, c, Fatal(desc)), 2, desc)
    ensures desc > 0 ==> Alerted(c, AlertFromErr(env, c, Warning(desc)), 1, desc)
  {
    AlertExactly(env, c, Fatal(desc));
    AlertExactly(env, c, Warning(desc));
    hide AlertFromErr, Alerted;
    assert Fatal(desc) == -(256 * 2 + desc) && Warning(desc) == -(256 * 1 + desc);
  }

  // ----- when the peer goes away -----

  lemma AlertKeepsPeer(env: Env, c: Ctx, err: int)
    ensures AlertFromErr(env, c, err).peer.Some? == c.peer.Some?
  {
    hide Send;
  }

  lemma MessageKeepsPeer(env: Env, c: Ctx, role: Role, state: State, data: bytes)
    requires c.peer.Some? && CanHandle(c, state, MsgType(data))
    ensures HandleMessage(env, c, role, state, data).ctx.peer.Some?
  {
    hide MsgType, HandleHelloVerify, HandleServerHello, HandleServerKeyExchange, HandleServerHelloDone,
         HandleCertificateRequest, HandleClientKeyExchange, VerifyPeer, AnswerClientHello, SendClientHello, CheckFinished,
         ServerFinish, PeerForHello;
  }

  lemma {:induction false} DrainKeepsPeer(env: Env, c: Ctx, role: Role, res: int)
    requires c.peer.Some?
    ensures Drain(env, c, role, res).ctx.peer.Some?
    decreases if HasHs(c) then |Hs(c).queue| else 0
  {
    hide HandleMessage, MsgType;
    if HasHs(c) && FindQueued(Hs(c).queue, Hs(c).mseqR).Some? {
      var i := FindQueued(Hs(c).queue, Hs(c).mseqR).value;
      var c1, m := WithQueue(c, Without(Hs(c).queue, i)), Hs(c).queue[i];
      HandleMessageQueue(env, c1, role, P(c1).state, m);
      MessageKeepsPeer(env, c1, role, P(c1).state, m);
      var r := HandleMessage(env, c1, role, P(c1).state, m);
      if r.err >= 0 {
        DrainKeepsPeer(env, r.ctx, role, r.err);
      }
    }
  }

  lemma HandshakeKeepsPeer(env: Env, c: Ctx, role: Role, state: State, data: bytes)
    requires c.peer.Some?
    ensures HandleHandshake(env, c, role, state, data).ctx.peer.Some?
  {
    hide HandleMessage, MsgType, MsgSeq, Drain;
    if CanHandle(c, state, MsgType(data)) {
      MessageKeepsPeer(env, c, role, state, data);
      var r := HandleMessage(env, c, role, state, data);
      DrainKeepsPeer(env, r.ctx, role, r.err);
    }
  }

  /** A ChangeCipherSpec that was waited for and cannot be taken: not a single 1, or there are no keys for it. */
  predicate BadCcs(env: Env, c: Ctx, data: bytes)
  {
    && c.peer.Some? && P(c).state.WaitChangeCipherSpec?
    && (data == [] || data[0] != 1 || (P(c).role.Server? && HasHs(c) && CalculateKeyBlock(env, c).err < 0))
  }

  /** An alert that ends the session: fatal, or a close notification, whatever its level. */
  predicate EndsSession(data: bytes) { |data| >= 2 && (data[0] == 2 || data[1] == 0) }

  lemma DispatchDrops(env: Env, c: Ctx, packet: bytes, role: Role, state: State, data: bytes)
    requires IsPacket(packet) && c.peer.Some?
    ensures Dispatch(env, c, packet, role, state, data).ctx.peer.None?
       <==> (packet[0] == Record.CT_ALERT && EndsSession(data))
            || (packet[0] == Record.CT_CHANGE_CIPHER_SPEC && BadCcs(env, c, data))
    ensures Dispatch(env, c, packet, role, state, data).ctx.peer.None? ==> Dispatch(env, c, packet, role, state, data).err < 0
  {
    hide HandleHandshake, AlertFromErr, SendAlert, CalculateKeyBlock, ExpectedEpoch, Attempt, Record.ReadHeader;
    var r := HandleCcs(env, c, data);
    AlertKeepsPeer(env, r.ctx, r.err);
    var role', state' := Record.Server, WaitClientHello;
    HandshakeKeepsPeer(env, c, role, state, data);
    HandshakeKeepsPeer(env, c, role', state', data);
    AlertKeepsPeer(env, HandleHandshake(env, c, role, state, data).ctx, HandleHandshake(env, c, role, state, data).err);
    AlertKeepsPeer(env, HandleHandshake(env, c, role', state', data).ctx, HandleHandshake(env, c, role', state', data).err);
    CcsResult(env, c, data);
  }

  lemma CcsResult(env: Env, c: Ctx, data: bytes)
    ensures HandleCcs(env, c, data).err < 0 <==> BadCcs(env, c, data)
    ensures HandleCcs(env, c, data).ctx.peer.Some? == c.peer.Some?
  {
    hide CalculateKeyBlock;
  }

  /**
   * An arriving record makes the peer go away exactly if it is an alert that ends
   * the session, a ChangeCipherSpec that was waited for and cannot be taken, or,
   * before the session is connected, one that cannot be read.
   */
  lemma PeerGoesExactlyIf(env: Env, c: Ctx, packet: bytes)
    requires c.peer.Some? && IsPacket(packet)
    ensures HandleDatagram(env, c, packet).ctx.peer.None?
       <==> var (p, got) := Receive(env, P(c), packet);
            || (got.Plain? && packet[0] == Record.CT_ALERT && EndsSession(got.data))
            || (got.Plain? && packet[0] == Record.CT_CHANGE_CIPHER_SPEC && BadCcs(env, SetPeer(c, p), got.data))
            || (got.Failed? && BeforeConnected(P(c).state))
    ensures HandleDatagram(env, c, packet).ctx.peer.None? ==> HandleDatagram(env, c, packet).err < 0
  {
    FirstHandshake.ReceiveKeeps(env, P(c), packet);
    hide Dispatch, Receive, BadCcs, AlertFromErr;
    var (p, got) := Receive(env, P(c), packet);
    var c1 := SetPeer(c, p);
    match got
    case Dropped =>
    case Plain(data) => DispatchDrops(env, c1, packet, p.role, p.state, data);
    case Failed =>
      if Attempt(p, packet) {
        DispatchDrops(env, c1, packet, Record.Server, WaitClientHello, packet[Record.RH_LENGTH..]);
      }
  }

  /** What is said to the peer before it goes: why a record could not be read, or what was wrong with the ChangeCipherSpec. */
  lemma GoneWithAlert(env: Env, c: Ctx, packet: bytes)
    requires c.peer.Some? && IsPacket(packet) && P(c).slot0.Some? && SecurityOf(P(c), Record.ReadHeader(packet).epoch).None?
    requires BeforeConnected(P(c).state)
    ensures var s, out := P(c).slot0.value, HandleDatagram(env, c, packet).ctx.out;
            out == c.out + [Out(false, Record.CT_ALERT, s.epoch, s.rseq, s.suite, s.keyBlock, [2, 51])]
  {
    hide Dispatch, AlertFromErr, Record.ReadHeader, Record.Open;
    ErrorsName(env, c, 51);
    assert SetPeer(c, P(c)) == c;
  }

  lemma BadCcsAnswered(env: Env, c: Ctx, packet: bytes, role: Role, state: State, data: bytes)
    requires IsPacket(packet) && packet[0] == Record.CT_CHANGE_CIPHER_SPEC && c.peer.Some? && P(c).slot0.Some?
    requires P(c).state.WaitChangeCipherSpec? && (data == [] || data[0] != 1)
    ensures var s, out := P(c).slot0.value, Dispatch(env, c, packet, role, state, data).ctx.out;
            out == c.out + [Out(false, Record.CT_ALERT, s.epoch, s.rseq, s.suite, s.keyBlock, [2, 50])]
  {
    hide AlertFromErr, CalculateKeyBlock, SendAlert;
    ErrorsName(env, c, 50);
  }

  /** A session without an alert for the error is closed before it goes. */
  lemma ClosedBefore(env: Env, c: Ctx)
    requires c.peer.Some? && P(c).slot0.Some?
    ensures var c', s := Destroy(env, c), P(c).slot0.value;
            && c'.peer.None?
            && c'.out == c.out + if P(c).state.Closed? || P(c).state.Closing? then []
                                 else [Out(false, Record.CT_ALERT, s.epoch, s.rseq, s.suite, s.keyBlock, [2, 0])]
  {
    Sends(env, c, Record.CT_ALERT, [2, 0]);
    hide Send;
    assert c.out + [] == c.out;
  }

  // ----- handshake messages that are not handled -----

  /** Too short, from nobody, too late or too early: what is not handled at once is refused, ignored or queued. */
  lemma NotHandled(env: Env, c: Ctx, role: Role, state: State, data: bytes)
    requires state.Connected? ==> c.peer.Some?
    ensures var r := HandleHandshake(env, c, role, state, data);
            && (|data| < 12 ==> r == R(c, -(512 + 50)))
            && (|data| >= 12 && c.peer.None? && MsgType(data) != HT_CLIENT_HELLO ==> r == R(c, -(512 + 40)))
            && (|data| >= 12 && HasHs(c) && MsgSeq(data) < Hs(c).mseqR ==> r == R(c, 0))
            && (|data| >= 12 && HasHs(c) && MsgSeq(data) > Hs(c).mseqR ==>
                  if |data| <= 1400 && (forall m :: m in Hs(c).queue ==> MsgSeq(m) != MsgSeq(data))
                  then r == R(SetHs(c, Hs(c).(queue := Hs(c).queue + [data])), 0) else r == R(c, 0))
  {
    hide HandleMessage, MsgType, MsgSeq, Drain, FindQueued;
    if HasHs(c) {
      var q := Hs(c).queue;
      assert FindQueued(q, MsgSeq(data)).None? <==> forall m :: m in q ==> MsgSeq(m) != MsgSeq(data) by {
        if FindQueued(q, MsgSeq(data)).Some? {
          assert q[FindQueued(q, MsgSeq(data)).value] in q;
        }
      }
    }
  }

  /** A handshake record that comes under the expected epoch is handled; if that fails, its alert goes out. */
  lemma HandledUnderItsEpoch(env: Env, c: Ctx, packet: bytes)
    requires IsPacket(packet) && packet[0] == Record.CT_HANDSHAKE && c.peer.Some?
    requires var (p, got) := Receive(env, P(c), packet);
             got.Plain? && ExpectedEpoch(p, p.role, p.state) == Record.ReadHeader(packet).epoch
    ensures var (p, got) := Receive(env, P(c), packet);
            var r := HandleHandshake(env, SetPeer(c, p), p.role, p.state, got.data);
            HandleDatagram(env, c, packet).ctx == if r.err < 0 then AlertFromErr(env, r.ctx, r.err) else r.ctx
  {
    hide HandleHandshake, AlertFromErr, Receive, ExpectedEpoch, Record.ReadHeader;
  }

  /** Under any other epoch it is ignored, unless a connected peer begins anew in the clear. */
  lemma IgnoredUnderAnother(env: Env, c: Ctx, packet: bytes)
    requires IsPacket(packet) && packet[0] == Record.CT_HANDSHAKE && c.peer.Some?
    requires var (p, got) := Receive(env, P(c), packet);
             got.Plain? && ExpectedEpoch(p, p.role, p.state) != Record.ReadHeader(packet).epoch
    requires !P(c).state.Connected? || Record.ReadHeader(packet).epoch != 0
             || (|packet| > 13 && packet[13] != HT_CLIENT_HELLO && packet[13] != HT_HELLO_REQUEST)
    ensures HandleDatagram(env, c, packet).ctx == SetPeer(c, Receive(env, P(c), packet).0)
  {
    hide Receive, ExpectedEpoch, Record.ReadHeader, Attempt, Dispatch, IsPacket;
    FirstHandshake.ReceiveKeeps(env, P(c), packet);
    var (p, got) := Receive(env, P(c), packet);
    NoAttempt(p, packet);
    DispatchIgnores(env, SetPeer(c, p), packet, p, got.data);
  }

  lemma DispatchIgnores(env: Env, c: Ctx, packet: bytes, p: Peer, data: bytes)
    requires IsPacket(packet) && packet[0] == Record.CT_HANDSHAKE && c.peer == Some(p) && !Attempt(p, packet)
    requires ExpectedEpoch(p, p.role, p.state) != Record.ReadHeader(packet).epoch
    ensures Dispatch(env, c, packet, p.role, p.state, data) == R(c, 0)
  {
    hide ExpectedEpoch, Record.ReadHeader, Attempt, AlertIfFailed, HandleHandshake;
  }

  lemma NoAttempt(p: Peer, packet: bytes)
    requires IsPacket(packet)
    requires !p.state.Connected? || Record.ReadHeader(packet).epoch != 0
             || (|packet| > 13 && packet[13] != HT_CLIENT_HELLO && packet[13] != HT_HELLO_REQUEST)
    ensures !Attempt(p, packet)
  {
    hide Record.ReadHeader;
  }

  /** A Finished that does not match closes the session with a fatal handshake_failure. */
  lemma MismatchAlerted(env: Env, c: Ctx, packet: bytes, m: bytes)
    requires IsPacket(packet) && packet[0] == Record.CT_HANDSHAKE && HasHs(c) && P(c).state.WaitFinished?
    requires var (p, got) := Receive(env, P(c), packet);
             got == Plain(m) && p.slot0.Some? && ExpectedEpoch(p, p.role, p.state) == Record.ReadHeader(packet).epoch
    requires |m| >= 12 && MsgSeq(m) == Hs(c).mseqR && MsgType(m) == HT_FINISHED
    requires !FirstHandshake.FinishedMatches(env, c, m)
    ensures Alerted(SetPeer(c, Receive(env, P(c), packet).0), HandleDatagram(env, c, packet).ctx, 2, 40)
  {
    FirstHandshake.ReceiveKeeps(env, P(c), packet);
    HandledUnderItsEpoch(env, c, packet);
    var p := Receive(env, P(c), packet).0;
    var c1 := SetPeer(c, p);
    assert FirstHandshake.FinishedMatches(env, c1, m) == FirstHandshake.FinishedMatches(env, c, m);
    hide Receive, HandleDatagram, FirstHandshake.FinishedMatches, ExpectedEpoch, Record.ReadHeader, AlertFromErr, Alerted, HandleMessage,
         MsgType, MsgSeq;
    FirstHandshake.ConnectedByFinished(env, c1, p.role, p.state, m);
    assert HandleHandshake(env, c1, p.role, p.state, m) == R(c1, Fatal(HANDSHAKE_FAILURE));
    ErrorsName(env, c1, 40);
  }

  // ----- ChangeCipherSpec -----

  /** Taken while it is waited for, it makes the peer wait for Finished, a server under new keys; otherwise it is ignored. */
  lemma CcsExactly(env: Env, c: Ctx, data: bytes)
    requires c.peer.Some? && !BadCcs(env, c, data)
    ensures var r := HandleCcs(env, c, data);
            && r.err == 0 && r.ctx.out == c.out
            && (if !P(c).state.WaitChangeCipherSpec? then r.ctx == c
                else
                  && P(r.ctx).state.WaitFinished? && P(r.ctx).log == P(c).log + [GotCcs]
                  && (P(c).role.Client? ==> P(r.ctx).slot1 == P(c).slot1 && P(r.ctx).hs == P(c).hs)
                  && (P(c).role.Server? && HasHs(c) ==>
                        P(r.ctx).slot1 == P(CalculateKeyBlock(env, c).ctx).slot1
                        && P(r.ctx).hs == P(CalculateKeyBlock(env, c).ctx).hs))
  {
    KeysSendNothing(env, c);
    hide CalculateKeyBlock;
  }

  lemma KeysSendNothing(env: Env, c: Ctx)
    ensures HasHs(c) ==> CalculateKeyBlock(env, c).ctx.out == c.out
  {
    hide Prf.MasterSecret, Prf.KeyBlockOf;
  }

  // ----- calls of the application -----

  /** dtls_close says so to the peer, which is closing from then on. */
  lemma ClosesExactly(env: Env, c: Ctx)
    ensures c.peer.None? ==> Close(env, c) == R(c, -1)
    ensures c.peer.Some? && P(c).slot0.Some? ==> Alerted(c, Close(env, c).ctx, 2, 0)
  {
    if c.peer.Some? && P(c).slot0.Some? {
      Sends(env, c, Record.CT_ALERT, [LEVEL_FATAL, CLOSE_NOTIFY]);
      hide Send;
    }
  }

  /** A close notification or a fatal alert is answered by the same, but for a fatal one of another kind, and while closing. */
  lemma AlertAnswered(env: Env, c: Ctx, data: bytes)
    requires c.peer.Some? && P(c).slot0.Some? && |data| >= 2
    ensures var r, s := HandleAlert(env, c, data), P(c).slot0.value;
            r.ctx.out == c.out + if data[1] == 0 && !P(c).state.Closing?
                                 then [Out(false, Record.CT_ALERT, s.epoch, s.rseq, s.suite, s.keyBlock, [2, 0])] else []
  {
    Sends(env, c, Record.CT_ALERT, [2, 0]);
    hide Send;
    assert c.out + [] == c.out;
  }

  /** dtls_write: data goes out exactly over a connected session; one that is not yet connected takes it for nothing. */
  lemma WritesExactly(env: Env, c: Ctx, data: bytes)
    ensures c.peer.None? ==> Write(env, c, data).ctx == Connect(env, c).ctx && Write(env, c, data).err <= 0
    ensures c.peer.Some? && !P(c).state.Connected? ==> Write(env, c, data) == R(c, 0)
    ensures c.peer.Some? && P(c).state.Connected? && P(c).slot0.Some? ==>
              var r := Write(env, c, data);
              SentOne(c, r.ctx, 23, data) && P(r.ctx).state.Connected? && r.err == env.sendResult(|c.out|)
  {
    if c.peer.Some? && P(c).state.Connected? && P(c).slot0.Some? {
      Sends(env, c, Record.CT_APPLICATION_DATA, data);
    }
    hide Send, Connect;
  }

  /** A connected server asks for a new handshake with a HelloRequest numbered 0, and stays connected. */
  lemma ServerAsks(env: Env, c: Ctx)
    requires c.peer.Some? && P(c).state.Connected? && P(c).role.Server? && P(c).slot0.Some?
    ensures var r, s := Renegotiate(env, c), P(c).slot0.value; var m := HandshakeCodec.Message(HT_HELLO_REQUEST, 0, []);
            && r.ctx.out == c.out + [Out(false, Record.CT_HANDSHAKE, s.epoch, s.rseq, s.suite, s.keyBlock, m)]
            && P(r.ctx).state.Connected? && HasHs(r.ctx) && Hs(r.ctx).mseqR == 0 && Hs(r.ctx).mseqS == 1
            && r.err == env.sendResult(|c.out|)
  {
    hide HandshakeCodec.Message;
  }

  /** A connected client sends a ClientHello instead; it stays connected exactly if sending fails. */
  lemma ClientAsks(env: Env, c: Ctx)
    requires c.peer.Some? && P(c).state.Connected? && P(c).role.Client? && P(c).slot0.Some?
    ensures var r, s := Renegotiate(env, c), P(c).slot0.value;
            var m := HandshakeCodec.Message(HT_CLIENT_HELLO, 0, ClientHelloBody(env.random(c.draws), []));
            && r.ctx.out == c.out + [Out(false, Record.CT_HANDSHAKE, s.epoch, s.rseq, s.suite, s.keyBlock, m)]
            && r.err == env.sendResult(|c.out|) && P(r.ctx).state == (if r.err < 0 then Connected else ClientHello)
            && HasHs(r.ctx) && Hs(r.ctx).mseqR == 0 && Hs(r.ctx).mseqS == 1 && Hs(r.ctx).queue == []
  {
    hide HandshakeCodec.Message, ClientHelloBody;
  }

  /** Asked for it, a connected peer sends a ClientHello numbered 0 without a cookie, and expects message 1 next. */
  lemma AskedBeginsAnew(env: Env, c: Ctx, role: Role, data: bytes)
    requires c.peer.Some? && P(c).state.Connected? && P(c).hs.None? && P(c).slot0.Some? && MsgType(data) == HT_HELLO_REQUEST
    ensures var r, s := HandleMessage(env, c, role, P(c).state, data), P(c).slot0.value;
            var m := HandshakeCodec.Message(HT_CLIENT_HELLO, 0, ClientHelloBody(env.random(c.draws), []));
            && r.ctx.out == c.out + [Out(false, Record.CT_HANDSHAKE, s.epoch, s.rseq, s.suite, s.keyBlock, m)]
            && r.err == env.sendResult(|c.out|)
            && (r.err >= 0 ==> P(r.ctx).state.ClientHello? && HasHs(r.ctx) && Hs(r.ctx).mseqS == 1 && Hs(r.ctx).mseqR == 1)
            && (r.err < 0 ==> P(r.ctx).state.Connected?)
  {
    hide MsgType, HandshakeCodec.Message, ClientHelloBody;
  }

  /** Application data changes nothing but the window, and is an error if there is nobody it could be from. */
  lemma DataHandedOver(env: Env, c: Ctx, packet: bytes)
    requires IsPacket(packet) && packet[0] == Record.CT_APPLICATION_DATA
    ensures c.peer.None? ==> HandleDatagram(env, c, packet) == R(c, -1)
    ensures c.peer.Some? && Receive(env, P(c), packet).1.Plain? ==>
              HandleDatagram(env, c, packet) == R(SetPeer(c, Receive(env, P(c), packet).0), 0)
  {
    hide Receive, DispatchHandshake, HandleCcs, HandleAlert;
  }

  /** Without a connected session there is nothing to renegotiate. */
  lemma NothingToRenegotiate(env: Env, c: Ctx)
    requires c.peer.None? || !P(c).state.Connected?
    ensures Renegotiate(env, c) == R(c, -1)
  {
  }
}
