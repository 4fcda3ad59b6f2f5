/**
 * One record arriving at a session: the replay window, decryption, the epoch
 * check, reordering of handshake messages, ChangeCipherSpec and alerts
 * (dtls_handle_message and what it calls in dtls.c).
 */
module Session {
  import opened Bytes
  import opened HandshakeCodec
  import opened Engine
  import Record
  import Replay

  const DTLS_MAX_BUF := 1400

  // ----- reordering -----

  /** The place of the first queued message with this number. */
  function FindQueued(queue: seq<bytes>, mseq: nat): (r: Option<nat>)
    ensures r.Some? ==> r.value < |queue| && MsgSeq(queue[r.value]) == mseq
    ensures r.None? ==> forall i :: 0 <= i < |queue| ==> MsgSeq(queue[i]) != mseq
    ensures r.Some? ==> forall i :: 0 <= i < r.value ==> MsgSeq(queue[i]) != mseq
  {
    if queue == [] then None
    else if MsgSeq(queue[0]) == mseq then Some(0)
    else match FindQueued(queue[1..], mseq)
         case None => None
         case Some(i) => Some(i + 1)
  }

  function WithQueue(c: Ctx, queue: seq<bytes>): (r: Ctx)
    requires HasHs(c)
    ensures HasHs(r)
  {
    SetHs(c, Hs(c).(queue := queue))
  }

  /** Handling a message leaves the reorder queue alone or ends up without one, or with a new one. */
  lemma HandleMessageQueue(env: Env, c: Ctx, role: Role, state: State, data: bytes)
    requires HasHs(c)
    ensures var r := HandleMessage(env, c, role, state, data);
            HasHs(r.ctx) ==> Hs(r.ctx).queue == Hs(c).queue || Hs(r.ctx).queue == []
  {
    hide VerifyPeer, SendClientHello, ServerFinish, CheckFinished, MsgType, MsgSeq, AnswerClientHello, HandleHelloVerify,
         HandleServerHello, HandleServerKeyExchange, HandleServerHelloDone, HandleCertificateRequest,
         HandleClientKeyExchange;
  }

  /**
   * The loop of handle_handshake: as long as the handshake goes on and the
   * message that is expected next is queued, it is taken out and handled in
   * the state the peer is in by then.
   */
  function Drain(env: Env, c: Ctx, role: Role, res: int): R
    decreases if HasHs(c) then |Hs(c).queue| else 0
  {
    if !HasHs(c) then R(c, res)
    else
      match FindQueued(Hs(c).queue, Hs(c).mseqR)
      case None => R(c, res)
      case Some(i) =>
        var c1 := WithQueue(c, Without(Hs(c).queue, i));
        HandleMessageQueue(env, c1, role, P(c1).state, Hs(c).queue[i]);
        var r := HandleMessage(env, c1, role, P(c1).state, Hs(c).queue[i]);
        if r.err < 0 then r else Drain(env, r.ctx, role, r.err)
  }

  predicate Queueable(hs: Handshake, data: bytes)
  {
    |data| <= DTLS_MAX_BUF && FindQueued(hs.queue, MsgSeq(data)).None?
  }

  /** handle_handshake */
  function HandleHandshake(env: Env, c: Ctx, role: Role, state: State, data: bytes): R
    requires state.Connected? ==> c.peer.Some?
  {
    if |data| < HS_LENGTH then R(c, Fatal(DECODE_ERROR))
    else if !HasHs(c) then
      if MsgType(data) != HT_CLIENT_HELLO && c.peer.None? then R(c, Fatal(HANDSHAKE_FAILURE))
      else if Opening(MsgType(data)) then HandleMessage(env, c, role, state, data)
      else R(c, 0)
    else if MsgSeq(data) < Hs(c).mseqR then R(c, 0)
    else if MsgSeq(data) > Hs(c).mseqR then
      if Queueable(Hs(c), data) then R(WithQueue(c, Hs(c).queue + [data]), 0) else R(c, 0)
    else
      var r := HandleMessage(env, c, role, state, data);
      if r.err < 0 then r else Drain(env, r.ctx, role, r.err)
  }

  // ----- ChangeCipherSpec and alerts -----

  /**
   * handle_ccs. (A server waiting for ChangeCipherSpec always has handshake
   * parameters, so the last branch of the inner test is never taken.)
   */
  function HandleCcs(env: Env, c: Ctx, data: bytes): R
  {
    if c.peer.None? || !P(c).state.WaitChangeCipherSpec? then R(c, 0)
    else if |data| < 1 || data[0] != 1 then R(c, Fatal(DECODE_ERROR))
    else
      var r := if P(c).role.Server? && HasHs(c) then CalculateKeyBlock(env, c) else R(c, 0);
      if r.err < 0 then r else R(Log(SetState(r.ctx, WaitFinished), GotCcs), 0)
  }

  /** dtls_destroy_peer, after dtls_close where the peer is not closing yet */
  function Destroy(env: Env, c: Ctx): Ctx
    requires c.peer.Some?
  {
    var c1 := if P(c).state.Closed? || P(c).state.Closing? then c
              else SendAlert(env, c, LEVEL_FATAL, CLOSE_NOTIFY);
    c1.(peer := None)
  }

  /** handle_alert: a fatal alert or a close notification ends the session with result 1. */
  function HandleAlert(env: Env, c: Ctx, data: bytes): R
  {
    if |data| < 2 then R(c, Fatal(DECODE_ERROR))
    else if c.peer.None? then R(c, 0)
    else if data[0] == LEVEL_FATAL || data[1] == CLOSE_NOTIFY then
      var c1 := if data[1] == CLOSE_NOTIFY && !P(c).state.Closing?
                then SendAlert(env, c, LEVEL_FATAL, CLOSE_NOTIFY) else c;
      R(c1.(peer := None), 1)
    else R(c, 0)
  }

  /** dtls_alert_send_from_err */
  function AlertFromErr(env: Env, c: Ctx, err: int): Ctx
  {
    if c.peer.None? then c
    else if -768 < err < -256 then SendAlert(env, SetState(c, Closing), -err / 256, -err % 256)
    else if err == -1 then SendAlert(env, SetState(c, Closing), LEVEL_FATAL, INTERNAL_ERROR)
    else c
  }

  // ----- one record -----

  datatype Received = Dropped | Failed | Plain(data: bytes)

  /** is_record takes all of it for one record. (That it is no longer than this follows from the length field.) */
  predicate IsPacket(packet: bytes)
  {
    Record.RH_LENGTH <= |packet| <= Record.RH_LENGTH + 0xFFFF && Record.IsRecord(packet) == |packet|
  }

  function SetWindow(p: Peer, epoch: nat, w: Replay.State): Peer
  {
    if p.slot0.Some? && p.slot0.value.epoch == epoch then p.(slot0 := Some(p.slot0.value.(window := w)))
    else if p.slot1.Some? && p.slot1.value.epoch == epoch then p.(slot1 := Some(p.slot1.value.(window := w)))
    else p
  }

  function Plaintext(clear: Record.Opened): Received
  {
    if clear.Rejected? then Failed else Plain(clear.data)
  }

  /** The window, decrypt_verify and the window again. */
  function Receive(env: Env, p: Peer, packet: bytes): (Peer, Received)
    requires IsPacket(packet)
  {
    var h := Record.ReadHeader(packet);
    match SecurityOf(p, h.epoch)
    case None => (p, Failed)
    case Some(s) =>
      var clear := Record.Open(env.aes, p.role, s.suite, s.keyBlock, packet);
      var got := Replay.Packet(h.seqnum, if clear.Rejected? then -1 else |clear.data|);
      if Replay.VerdictOf(env.machine, s.window, got) != Replay.Decrypted then (p, Dropped)
      else
        var p1 := if clear.Cleartext? && s.suite.PskCcm8? then FreeOther(p) else p;
        (SetWindow(p1, h.epoch, Replay.Next(env.machine, s.window, got)), Plaintext(clear))
  }

  /** hs_attempt_with_existing_peer */
  predicate Attempt(p: Peer, packet: bytes)
    requires IsPacket(packet)
  {
    p.state.Connected? && packet[0] == Record.CT_HANDSHAKE && Record.ReadHeader(packet).epoch == 0
    && Opening(At(packet, Record.RH_LENGTH))
  }

  /** The epoch a handshake message has to come under. */
  function ExpectedEpoch(p: Peer, role: Role, state: State): nat
  {
    var epoch := if p.slot0.Some? then p.slot0.value.epoch else 0;
    if role.Server? && state.WaitFinished? then (epoch + 1) % 0x1_0000 else epoch
  }

  function AlertIfFailed(env: Env, r: R): R
  {
    if r.err < 0 then R(AlertFromErr(env, r.ctx, r.err), r.err) else R(r.ctx, 0)
  }

  function DispatchHandshake(env: Env, c: Ctx, packet: bytes, role: Role, state: State, data: bytes): R
    requires IsPacket(packet) && (state.Connected? ==> c.peer.Some?)
  {
    if c.peer.Some? && ExpectedEpoch(P(c), role, state) != Record.ReadHeader(packet).epoch then
      if Attempt(P(c), packet)
      then AlertIfFailed(env, HandleHandshake(env, c, Record.Server, WaitClientHello, data))
      else R(c, 0)
    else AlertIfFailed(env, HandleHandshake(env, c, role, state, data))
  }

  /** The switch over the content type. What is read is not part of the state. */
  function Dispatch(env: Env, c: Ctx, packet: bytes, role: Role, state: State, data: bytes): R
    requires IsPacket(packet) && (state.Connected? ==> c.peer.Some?)
  {
    if packet[0] == Record.CT_CHANGE_CIPHER_SPEC then
      var r := HandleCcs(env, c, data);
      if r.err >= 0 then r
      else
        var c1 := AlertFromErr(env, r.ctx, r.err);
        R(if c1.peer.Some? then Destroy(env, c1) else c1, r.err)
    else if packet[0] == Record.CT_ALERT then
      var r := HandleAlert(env, c, data);
      if r.err == 1 then R(r.ctx, -1) else r
    else if packet[0] == Record.CT_HANDSHAKE then DispatchHandshake(env, c, packet, role, state, data)
    else if packet[0] == Record.CT_APPLICATION_DATA then R(c, if c.peer.None? then -1 else 0)
    else R(c, 0)
  }

  /** dtls_handle_message for one record */
  function HandleRecord(env: Env, c: Ctx, packet: bytes): R
    requires IsPacket(packet)
  {
    if c.peer.None? then Dispatch(env, c, packet, Record.Server, WaitClientHello, packet[Record.RH_LENGTH..])
    else
      var (p, got) := Receive(env, P(c), packet);
      var c1 := SetPeer(c, p);
      match got
      case Dropped => R(c1, 0)
      case Plain(data) => Dispatch(env, c1, packet, p.role, p.state, data)
      case Failed =>
        if Attempt(p, packet)
        then Dispatch(env, c1, packet, Record.Server, WaitClientHello, packet[Record.RH_LENGTH..])
        else
          R(if BeforeConnected(p.state) then AlertFromErr(env, c1, Fatal(DECRYPT_ERROR)).(peer := None) else c1,
            Fatal(DECRYPT_ERROR))
  }

  /** dtls_handle_message for a datagram that holds one record; anything else is ignored. */
  function HandleDatagram(env: Env, c: Ctx, packet: bytes): R
  {
    if IsPacket(packet) then HandleRecord(env, c, packet) else R(c, 0)
  }

  // ----- calls of the application -----

  /** dtls_connect for an address without a peer */
  function Connect(env: Env, c: Ctx): R
    requires c.peer.None?
  {
    var c1 := SetHs(SetPeer(c, NewPeer(Record.Client)), NewHandshake(0, 0));
    var r := SendClientHello(env, c1, []);
    if r.err < 0 then r else R(SetState(r.ctx, ClientHello), r.err)
  }

  /** dtls_renegotiate */
  function Renegotiate(env: Env, c: Ctx): R
  {
    if c.peer.None? || !P(c).state.Connected? then R(c, -1)
    else
      var c1 := SetHs(c, NewHandshake(0, 0));
      if P(c).role.Client? then
        var r := SendClientHello(env, c1, []);
        if r.err < 0 then r else R(SetState(r.ctx, ClientHello), r.err)
      else SendHandshake(env, c1, HT_HELLO_REQUEST, [], false)
  }

  /** dtls_close */
  function Close(env: Env, c: Ctx): R
  {
    if c.peer.None? then R(c, -1) else R(SetState(SendAlert(env, c, LEVEL_FATAL, CLOSE_NOTIFY), Closing), 0)
  }

  /** dtls_write */
  function Write(env: Env, c: Ctx, data: bytes): R
  {
    if c.peer.None? then
      var r := Connect(env, c);
      R(r.ctx, if r.err >= 0 then 0 else r.err)
    else if !P(c).state.Connected? then R(c, 0)
    else Send(env, c, Record.CT_APPLICATION_DATA, data)
  }

  // ----- runs -----

  datatype Action = Arrives(packet: bytes) | Connects | Renegotiates | Closes | Writes(data: bytes)

  /** Whatever arrives and whatever the application asks for. */
  function Act(env: Env, c: Ctx, a: Action): Ctx
  {
    match a
    case Arrives(packet) => HandleDatagram(env, c, packet).ctx
    case Connects => if c.peer.None? then Connect(env, c).ctx else Renegotiate(env, c).ctx
    case Renegotiates => Renegotiate(env, c).ctx
    case Closes => Close(env, c).ctx
    case Writes(data) => Write(env, c, data).ctx
  }

  function Empty(): Ctx { Ctx(None, 0, []) }

  ghost function Run(env: Env, actions: seq<Action>): Ctx
  {
    if actions == [] then Empty()
    else Act(env, Run(env, actions[..|actions| - 1]), actions[|actions| - 1])
  }
}
