/**
 * The DTLS engine for one remote session, PSK only, as a state machine
 * (dtls.c and peer.h). The application masks the ECDSA callbacks, so the only
 * known cipher is TLS_PSK_WITH_AES_128_CCM_8.
 *
 * Every function takes the context and returns the changed context and the
 * result code of the C function: negative for an error.
 */
module Engine {
  import opened Bytes
  import opened HandshakeCodec
  import Prf
  import Record
  import Replay

  type Role = Record.Role

  datatype Option<+T> = None | Some(value: T)

  // ----- alerts -----

  const UNEXPECTED_MESSAGE := 10
  const HANDSHAKE_FAILURE := 40
  const DECODE_ERROR := 50
  const DECRYPT_ERROR := 51
  const PROTOCOL_VERSION := 70
  const INSUFFICIENT_SECURITY := 71
  const INTERNAL_ERROR := 80
  const NO_RENEGOTIATION := 100
  const LEVEL_WARNING := 1
  const LEVEL_FATAL: byte := 2
  const CLOSE_NOTIFY: byte := 0

  function Fatal(desc: nat): int { -(2 * 256 + desc) }
  function Warning(desc: nat): int { -(256 + desc) }

  // ----- state -----

  datatype State =
    | Init | WaitClientHello | WaitClientCertificate | WaitClientKeyExchange | WaitCertificateVerify
    | WaitChangeCipherSpec | WaitFinished | FinishedState
    | ClientHello | WaitServerCertificate | WaitServerKeyExchange | WaitServerHelloDone
    | Connected | Closing | Closed

  /** state < DTLS_STATE_CONNECTED */
  predicate BeforeConnected(s: State) { !s.Connected? && !s.Closing? && !s.Closed? }

  /** dtls_security_parameters_t */
  datatype Security = Security(epoch: nat, rseq: nat, suite: Record.Suite, keyBlock: Record.KeyBlock,
                               window: Replay.State)

  function NewSecurity(epoch: nat): Security
  {
    Security(epoch, 0, Record.NullSuite, ZeroKeys, Replay.Fresh())
  }

  const ZeroKeys: Record.KeyBlock := Zeros(Record.KEYBLOCK_LENGTH)

  /** dtls_handshake_parameters_t; transcript is what was fed to hs_hash since it was last cleared. */
  datatype Handshake = Handshake(mseqS: nat, mseqR: nat, cipher: nat, transcript: bytes,
                                 clientRandom: Random, serverRandom: Random, master: bytes,
                                 identity: bytes, clientAuth: bool, queue: seq<bytes>)

  const ZeroRandom: Random := Zeros(RANDOM_LENGTH)

  function NewHandshake(mseqS: nat, mseqR: nat): Handshake
  {
    Handshake(mseqS, mseqR, NULL_WITH_NULL_NULL, [], ZeroRandom, ZeroRandom, [], [], false, [])
  }

  /** The messages that moved the peer on, in order; kept for the statements below only. */
  datatype Milestone = GotVerify | GotServerHello | GotKeyExchange | GotCertificateRequest | GotHelloDone
                     | GotClientHello | GotClientKeyExchange | GotCcs | GotFinished

  datatype Peer = Peer(role: Role, state: State, slot0: Option<Security>, slot1: Option<Security>,
                       hs: Option<Handshake>, sent: seq<(nat, nat)>, log: seq<Milestone>)

  /** A record handed to write(), before protection; bare: without security parameters. */
  datatype Out = Out(bare: bool, ctype: byte, epoch: nat, seqnum: nat, suite: Record.Suite, keyBlock: Record.KeyBlock,
                     payload: bytes)

  datatype Ctx = Ctx(peer: Option<Peer>, draws: nat, out: seq<Out>)

  datatype R = R(ctx: Ctx, err: int)

  // ----- the application's callbacks, the random source and the hash -----

  datatype PskInfo = PskInfo(bytes: bytes) | NoPsk(code: int)

  datatype Env = Env(hash: Prf.Hash, aes: Record.Aes, machine: Replay.Machine,
                     key: bytes -> PskInfo,           // get_psk_info(DTLS_PSK_KEY)
                     identity: bytes -> PskInfo,      // get_psk_info(DTLS_PSK_IDENTITY)
                     hint: PskInfo,                   // get_psk_info(DTLS_PSK_HINT)
                     sendResult: nat -> int,          // what sending the n-th record returns
                     random: nat -> Random,
                     extensionsOk: (bytes, bool) -> bool,
                     certificateRequestOk: bytes -> bool,
                     cookieSecret: bytes, address: bytes)

  predicate KnownCipher(code: nat) { code == PSK_WITH_AES_128_CCM_8 }

  // ----- peer.h -----

  function NewPeer(role: Role): Peer
  {
    Peer(role, Init, Some(NewSecurity(0)), None, None, [], [])
  }

  function SecurityOf(p: Peer, epoch: nat): Option<Security>
  {
    if p.slot0.Some? && p.slot0.value.epoch == epoch then p.slot0
    else if p.slot1.Some? && p.slot1.value.epoch == epoch then p.slot1
    else None
  }

  /**
   * dtls_security_params_next; the new epoch is 16 bits wide. (Without slot 0
   * the source would follow a null pointer; slot 0 is proved never to be empty.)
   */
  function NextParams(p: Peer): Peer
  {
    var epoch := if p.slot0.Some? then p.slot0.value.epoch else 0;
    p.(slot1 := Some(NewSecurity((epoch + 1) % 0x1_0000)))
  }

  function FreeOther(p: Peer): Peer
  {
    if p.slot0.None? || p.slot1.None? || p.slot0.value.epoch < p.slot1.value.epoch then p
    else p.(slot1 := None)
  }

  function SwitchParams(p: Peer): Peer
  {
    p.(slot0 := p.slot1, slot1 := p.slot0)
  }

  // ----- what sending and checking leave alone -----

  predicate HasHs(c: Ctx) { c.peer.Some? && c.peer.value.hs.Some? }
  function P(c: Ctx): Peer requires c.peer.Some? { c.peer.value }
  function Hs(c: Ctx): Handshake requires HasHs(c) { c.peer.value.hs.value }

  /** The same peer in the same handshake, expecting the same message. */
  predicate SamePeer(c: Ctx, c': Ctx)
  {
    && (c.peer.Some? <==> c'.peer.Some?)
    && (c.peer.Some? ==>
          && P(c').role == P(c).role && (P(c').hs.Some? <==> P(c).hs.Some?)
          && (HasHs(c) ==> Hs(c').queue == Hs(c).queue && Hs(c').mseqR == Hs(c).mseqR)
          && P(c).log <= P(c').log
          && (P(c').state.WaitClientHello? ==> P(c).state.WaitClientHello?)
          && (P(c').state.Connected? ==> P(c).state.Connected?))
  }

  /** And in the same state, with the same messages accepted. */
  predicate SameState(c: Ctx, c': Ctx)
  {
    SamePeer(c, c') && (c.peer.Some? ==> P(c').state == P(c).state && P(c').log == P(c).log)
  }

  /** And with the same choices made. */
  predicate Frame(c: Ctx, c': Ctx)
  {
    && SameState(c, c')
    && (HasHs(c) ==> Hs(c').cipher == Hs(c).cipher && Hs(c').clientAuth == Hs(c).clientAuth)
  }

  // ----- sending -----

  function Emit(env: Env, c: Ctx, o: Out): R
  {
    R(c.(out := c.out + [o]), env.sendResult(|c.out|))
  }

  /** dtls_send: a fresh record under slot 0 */
  function Send(env: Env, c: Ctx, ctype: byte, payload: bytes): (r: R)
    requires c.peer.Some?
    ensures Frame(c, r.ctx)
  {
    var p := c.peer.value;
    match p.slot0
    case None => Emit(env, c, Out(true, ctype, 0, 0, Record.NullSuite, ZeroKeys, payload))
    case Some(s) =>
      var p' := p.(slot0 := Some(s.(rseq := s.rseq + 1)), sent := p.sent + [(s.epoch, s.rseq)]);
      Emit(env, c.(peer := Some(p')), Out(false, ctype, s.epoch, s.rseq, s.suite, s.keyBlock, payload))
  }

  function Feed(hs: Handshake, data: bytes): Handshake { hs.(transcript := hs.transcript + data) }

  /** dtls_send_handshake_msg_hash for a peer */
  function SendHandshake(env: Env, c: Ctx, htype: byte, body: bytes, addHash: bool): (r: R)
    requires c.peer.Some? && (addHash ==> c.peer.value.hs.Some?)
    ensures Frame(c, r.ctx)
  {
    var p := c.peer.value;
    match p.hs
    case None => Send(env, c, Record.CT_HANDSHAKE, Message(htype, 0, body))
    case Some(hs) =>
      var m := Message(htype, hs.mseqS, body);
      var hs1 := hs.(mseqS := (hs.mseqS + 1) % 0x1_0000);
      var hs2 := if addHash then Feed(hs1, m) else hs1;
      Send(env, c.(peer := Some(p.(hs := Some(hs2)))), Record.CT_HANDSHAKE, m)
  }

  function SendCcs(env: Env, c: Ctx): (r: R)
    requires c.peer.Some?
    ensures Frame(c, r.ctx)
  {
    Send(env, c, Record.CT_CHANGE_CIPHER_SPEC, [1])
  }

  /** dtls_send_alert: the result of sending is ignored */
  function SendAlert(env: Env, c: Ctx, level: byte, desc: byte): Ctx
    requires c.peer.Some?
  {
    Send(env, c, Record.CT_ALERT, [level, desc]).ctx
  }

  // ----- helpers on the peer -----

  function SetPeer(c: Ctx, p: Peer): Ctx { c.(peer := Some(p)) }
  function SetHs(c: Ctx, hs: Handshake): Ctx requires c.peer.Some? { c.(peer := Some(c.peer.value.(hs := Some(hs)))) }
  function SetState(c: Ctx, s: State): Ctx requires c.peer.Some? { c.(peer := Some(c.peer.value.(state := s))) }
  function Log(c: Ctx, m: Milestone): Ctx
    requires c.peer.Some?
  {
    c.(peer := Some(c.peer.value.(log := c.peer.value.log + [m])))
  }
  function FeedHs(c: Ctx, data: bytes): Ctx requires HasHs(c) { SetHs(c, Feed(Hs(c), data)) }

  // ----- keys -----

  /** calculate_key_block */
  function CalculateKeyBlock(env: Env, c: Ctx): (r: R)
    requires HasHs(c)
    ensures Frame(c, r.ctx)
  {
    var p := NextParams(P(c));
    var hs := Hs(c);
    var c1 := SetPeer(c, p);
    if hs.cipher == PSK_WITH_AES_128_CCM_8 then
      match env.key(hs.identity)
      case NoPsk(code) => R(c1, code)
      case PskInfo(psk) =>
        if 2 * (2 + |psk|) > Record.KEYBLOCK_LENGTH then R(c1, Fatal(INTERNAL_ERROR))
        else
          var master := Prf.MasterSecret(env.hash, psk, hs.clientRandom, hs.serverRandom);
          var kb := Prf.KeyBlockOf(env.hash, psk, hs.clientRandom, hs.serverRandom);
          var s := p.slot1.value.(suite := Record.PskCcm8, keyBlock := kb, rseq := 0);
          R(SetPeer(c1, p.(slot1 := Some(s), hs := Some(hs.(master := master)))), 0)
    else if hs.cipher == NULL_WITH_NULL_NULL then R(c1, Fatal(INSUFFICIENT_SECURITY))
    else R(c1, Fatal(INTERNAL_ERROR))
  }

  /** dtls_send_finished */
  function SendFinished(env: Env, c: Ctx, side: Role): (r: R)
    requires HasHs(c)
    ensures Frame(c, r.ctx)
  {
    var hs := Hs(c);
    SendHandshake(env, c, HT_FINISHED, Prf.FinishedData(env.hash, hs.master, side, hs.transcript), true)
  }

  /** check_finished */
  function CheckFinished(env: Env, c: Ctx, data: bytes): int
    requires HasHs(c)
  {
    if |data| < HS_LENGTH + FIN_LENGTH then Fatal(HANDSHAKE_FAILURE)
    else if Sub(data, HS_LENGTH, FIN_LENGTH)
            == Prf.FinishedData(env.hash, Hs(c).master, P(c).role.Other(), Hs(c).transcript) then 0
    else Fatal(HANDSHAKE_FAILURE)
  }

  // ----- client side -----

  /** dtls_send_client_hello */
  function SendClientHello(env: Env, c: Ctx, cookie: bytes): (r: R)
    requires HasHs(c)
    ensures Frame(c, r.ctx)
  {
    if |cookie| > COOKIE_LENGTH_MAX then R(c, Fatal(HANDSHAKE_FAILURE))
    else if cookie == [] then
      var hs := Hs(c).(clientRandom := env.random(c.draws));
      SendHandshake(env, SetHs(c, hs).(draws := c.draws + 1), HT_CLIENT_HELLO,
                    ClientHelloBody(hs.clientRandom, []), false)
    else
      var hs := Hs(c).(transcript := []);
      SendHandshake(env, SetHs(c, hs), HT_CLIENT_HELLO, ClientHelloBody(hs.clientRandom, cookie), true)
  }

  /** check_server_hello_verify_request */
  function CheckHelloVerify(env: Env, c: Ctx, data: bytes): (r: R)
    requires HasHs(c)
    ensures Frame(c, r.ctx)
  {
    if |data| < HS_LENGTH + HV_LENGTH then R(c, Fatal(DECODE_ERROR))
    else SendClientHello(env, c, Sub(data, HS_LENGTH + HV_LENGTH, At(data, HS_LENGTH + 2)))
  }

  /** What is left of a size_t after subtracting: 32 bits, so it wraps. */
  function Left(n: int): nat { n % 0x1_0000_0000 }

  /** check_server_hello */
  function CheckServerHello(env: Env, c: Ctx, data: bytes): (r: R)
    requires HasHs(c)
    ensures SameState(c, r.ctx)
  {
    if |data| < HS_LENGTH + HS_LENGTH then R(c, Fatal(DECODE_ERROR))
    else
      var c1 := FeedHs(c, data);
      if U16(data, HS_LENGTH) != Record.DTLS_VERSION then R(c1, Fatal(PROTOCOL_VERSION))
      else
        var hs := Hs(c1).(serverRandom := Sub(data, HS_LENGTH + 2, RANDOM_LENGTH));
        var at, left := HS_LENGTH + 2 + RANDOM_LENGTH, |data| - (HS_LENGTH + 2 + RANDOM_LENGTH);
        var skip := At(data, at) + 1;                    // session id
        if Left(left) < skip then R(SetHs(c1, hs), Fatal(DECODE_ERROR))
        else
          var cipher := U16(data, at + skip);
          var c2 := SetHs(c1, hs.(cipher := cipher));
          if !KnownCipher(cipher) then R(c2, Fatal(INSUFFICIENT_SECURITY))
          else if At(data, at + skip + 2) != 0 then R(c2, Fatal(INSUFFICIENT_SECURITY))
          else if Left(left - skip - 3) < 2 || env.extensionsOk(data, false) then R(c2, 0)
          else R(c2, Fatal(HANDSHAKE_FAILURE))
  }

  /** check_server_key_exchange_psk */
  function CheckKeyExchange(c: Ctx, data: bytes): (r: R)
    requires HasHs(c)
    ensures Frame(c, r.ctx)
  {
    var c1 := FeedHs(c, data);
    if |data| < HS_LENGTH + 2 then R(c1, Fatal(DECODE_ERROR))
    else
      var len := U16(data, HS_LENGTH);
      if len != |data| - HS_LENGTH - 2 then R(c1, Fatal(DECODE_ERROR))
      else if len > IDENTITY_MAX then R(c1, Fatal(INTERNAL_ERROR))
      else R(SetHs(c1, Hs(c1).(identity := Sub(data, HS_LENGTH + 2, len))), 0)
  }

  /** dtls_send_client_key_exchange */
  function SendClientKeyExchange(env: Env, c: Ctx): (r: R)
    requires HasHs(c)
    ensures Frame(c, r.ctx)
  {
    var hs := Hs(c);
    if hs.cipher == PSK_WITH_AES_128_CCM_8 then
      match env.identity(hs.identity)
      case NoPsk(code) => R(c, code)
      case PskInfo(id) =>
        SendHandshake(env, SetHs(c, hs.(identity := id)), HT_CLIENT_KEY_EXCHANGE, IdentityBody(id), true)
    else if hs.cipher == NULL_WITH_NULL_NULL then R(c, Fatal(INSUFFICIENT_SECURITY))
    else R(c, Fatal(INTERNAL_ERROR))
  }

  /** check_server_hellodone: key exchange, keys, ChangeCipherSpec, switch, Finished */
  function CheckHelloDone(env: Env, c: Ctx, data: bytes): (r: R)
    requires HasHs(c)
    ensures Frame(c, r.ctx)
  {
    var c1 := FeedHs(c, data);
    if Hs(c1).clientAuth then R(c1, -1)                  // no ECDSA key callback
    else
      var r2 := SendClientKeyExchange(env, c1);
      if r2.err < 0 then r2
      else
        var r3 := CalculateKeyBlock(env, r2.ctx);
        if r3.err < 0 then r3
        else
          var r4 := SendCcs(env, r3.ctx);
          if r4.err < 0 then r4
          else SendFinished(env, SetPeer(r4.ctx, SwitchParams(P(r4.ctx))), Record.Client)
  }

  // ----- server side -----

  /** Where the parts of a ClientHello that surround its cookie begin and end. */
  function CookieAt(data: bytes): nat
  {
    HS_LENGTH + CH_LENGTH + At(data, HS_LENGTH + CH_LENGTH) + 1
  }

  /** dtls_create_cookie: an HMAC over all of the ClientHello but its cookie, or an error */
  function CreateCookie(env: Env, data: bytes): (r: PskInfo)
    ensures r.PskInfo? ==> |r.bytes| == COOKIE_LENGTH
    ensures r.NoPsk? ==> r.code < 0
  {
    var e := CookieAt(data);
    if e > |data| then NoPsk(Fatal(HANDSHAKE_FAILURE))
    else
      var e2 := e + At(data, e) + 1;
      if e2 > |data| then NoPsk(Fatal(HANDSHAKE_FAILURE))
      else
        var text := env.address + Sub(data, HS_LENGTH, e - HS_LENGTH)
                  + Sub(data, e2, Left(U24(data, 9) - (e2 - HS_LENGTH)));
        PskInfo(Prf.Hmac(env.hash, env.cookieSecret, text)[..COOKIE_LENGTH])
  }

  /** dtls_get_cookie */
  function GetCookie(data: bytes): PskInfo
  {
    if |data| < HS_LENGTH + CH_LENGTH + 1 then NoPsk(Fatal(HANDSHAKE_FAILURE))
    else if U16(data, HS_LENGTH) != Record.DTLS_VERSION then NoPsk(Fatal(PROTOCOL_VERSION))
    else
      var e := CookieAt(data);
      if e > |data| || |data| - e < At(data, e) + 1 then NoPsk(Fatal(HANDSHAKE_FAILURE))
      else PskInfo(Sub(data, e + 1, At(data, e)))
  }

  /**
   * dtls_verify_peer: 0 when the cookie is right; otherwise a HelloVerifyRequest
   * is sent, without a peer unless the state is Connected. When the cookie
   * cannot be fetched the error of making one is returned, which is 0.
   */
  function VerifyPeer(env: Env, c: Ctx, state: State, data: bytes): (r: R)
    requires state.Connected? ==> c.peer.Some?
    ensures Frame(c, r.ctx)
  {
    var mine := CreateCookie(env, data);
    if mine.NoPsk? then R(c, mine.code)
    else
      var cookie := GetCookie(data);
      if cookie.NoPsk? then R(c, 0)
      else if cookie.bytes == mine.bytes then R(c, 0)
      else if state.Connected? then
        SendHandshake(env, c, HT_HELLO_VERIFY_REQUEST, HelloVerifyBody(mine.bytes), false)
      else
        Emit(env, c, Out(true, Record.CT_HANDSHAKE, 0, 0, Record.NullSuite, ZeroKeys,
                         Message(HT_HELLO_VERIFY_REQUEST, 0, HelloVerifyBody(mine.bytes))))
  }

  /**
   * Whether there is a known cipher in the i bytes at position at. The loop ends
   * at i == 0, so a list of odd length does not end it: it is read on to the end
   * of the message, behind which there is nothing known.
   */
  function FindCipher(data: bytes, at: nat, i: int): bool
    decreases if i > 0 then i else 0, |data| + 2 - at
  {
    i != 0 && (KnownCipher(U16(data, at)) || ((i > 0 || at < |data|) && FindCipher(data, at + 2, i - 2)))
  }

  /** How many of the i compression methods at position at are read before null compression is found. */
  function FindCompression(data: bytes, at: nat, i: nat): Option<nat>
    decreases i
  {
    if i == 0 then None
    else if At(data, at) == 0 then Some(1)
    else match FindCompression(data, at + 1, i - 1)
         case None => None
         case Some(n) => Some(n + 1)
  }

  /** dtls_update_parameters */
  function UpdateParameters(env: Env, c: Ctx, data: bytes): (r: R)
    requires HasHs(c)
    ensures SameState(c, r.ctx)
  {
    var failed := if P(c).state.Connected? then Warning(NO_RENEGOTIATION) else Fatal(HANDSHAKE_FAILURE);
    var c1 := SetHs(c, Hs(c).(clientRandom := Sub(data, HS_LENGTH + 2, RANDOM_LENGTH)));
    var at0 := HS_LENGTH + CH_LENGTH;
    var at1 := at0 + At(data, at0) + 1;
    var at2 := at1 + At(data, at1) + 1;
    if |data| < at1 || |data| < at2 then R(c1, failed)
    else
      var i := U16(data, at2);
      if |data| - at2 < i + 2 then
        if P(c).slot0.None? || P(c).slot0.value.suite.NullSuite? then R(c1, failed)
        else R(SetHs(c1, Hs(c1).(cipher := PSK_WITH_AES_128_CCM_8)), 0)
      else if !FindCipher(data, at2 + 2, i) then R(SetHs(c1, Hs(c1).(cipher := NULL_WITH_NULL_NULL)), failed)
      else
        var c2 := SetHs(c1, Hs(c1).(cipher := PSK_WITH_AES_128_CCM_8));
        var at3 := at2 + 2 + i;
        if |data| - at3 < 1 then R(c2, 0)
        else
          var n := At(data, at3);
          if |data| - at3 < n + 1 then R(c2, failed)
          else
            match FindCompression(data, at3 + 1, n)
            case None => R(c2, failed)
            case Some(_) =>
              if |data| - at3 - 1 - n < 2 || env.extensionsOk(data, true) then R(c2, 0) else R(c2, failed)
  }

  /** dtls_send_server_hello and the messages after it */
  function SendServerHelloMsgs(env: Env, c: Ctx): (r: R)
    requires HasHs(c)
    ensures Frame(c, r.ctx)
  {
    var hs := Hs(c).(serverRandom := env.random(c.draws));
    var r1 := SendHandshake(env, SetHs(c, hs).(draws := c.draws + 1), HT_SERVER_HELLO,
                            ServerHelloBody(hs.serverRandom, hs.cipher), true);
    if r1.err < 0 then r1
    else if env.hint.NoPsk? then R(r1.ctx, env.hint.code)
    else
      var r2 := if env.hint.bytes == [] then r1
                else SendHandshake(env, r1.ctx, HT_SERVER_KEY_EXCHANGE, IdentityBody(env.hint.bytes), true);
      if r2.err < 0 then r2
      else
        var r3 := SendHandshake(env, r2.ctx, HT_SERVER_HELLO_DONE, [], true);
        if r3.err < 0 then r3 else R(r3.ctx, 0)
  }

  /** check_client_keyexchange */
  function CheckClientKeyExchange(c: Ctx, data: bytes): (r: R)
    requires HasHs(c)
    ensures Frame(c, r.ctx)
  {
    if Hs(c).cipher != PSK_WITH_AES_128_CCM_8 then R(c, 0)
    else if |data| < HS_LENGTH + 2 then R(c, Fatal(HANDSHAKE_FAILURE))
    else
      var len := U16(data, HS_LENGTH);
      if HS_LENGTH + 2 + len != |data| then R(c, Fatal(HANDSHAKE_FAILURE))
      else if len > IDENTITY_MAX then R(c, Fatal(INTERNAL_ERROR))
      else R(SetHs(c, Hs(c).(identity := Sub(data, HS_LENGTH + 2, len))), 0)
  }

  // ----- handle_handshake_msg, message by message -----

  function HandleHelloVerify(env: Env, c: Ctx, state: State, data: bytes): (r: R)
    requires HasHs(c)
    ensures SamePeer(c, r.ctx)
  {
    if !state.ClientHello? then R(c, Fatal(UNEXPECTED_MESSAGE))
    else
      var r := CheckHelloVerify(env, c, data);
      if r.err < 0 then r else R(Log(r.ctx, GotVerify), r.err)
  }

  function HandleServerHello(env: Env, c: Ctx, state: State, data: bytes): (r: R)
    requires HasHs(c)
    ensures SamePeer(c, r.ctx)
  {
    if !state.ClientHello? then R(c, Fatal(UNEXPECTED_MESSAGE))
    else
      var r := CheckServerHello(env, c, data);
      if r.err < 0 then r
      else R(Log(SetState(r.ctx, WaitServerHelloDone), GotServerHello), r.err)
  }

  /** The cipher decides which check runs; with a cipher other than these two none does. */
  function HandleServerKeyExchange(env: Env, c: Ctx, state: State, data: bytes): (r: R)
    requires HasHs(c)
    ensures SamePeer(c, r.ctx)
  {
    if Hs(c).cipher == ECDHE_ECDSA_WITH_AES_128_CCM_8 then R(c, Fatal(UNEXPECTED_MESSAGE))
    else if Hs(c).cipher == PSK_WITH_AES_128_CCM_8 then
      if !state.WaitServerHelloDone? then R(c, Fatal(UNEXPECTED_MESSAGE))
      else
        var r := CheckKeyExchange(c, data);
        if r.err < 0 then r
        else R(Log(SetState(r.ctx, WaitServerHelloDone), GotKeyExchange), r.err)
    else R(Log(SetState(c, WaitServerHelloDone), GotKeyExchange), 0)
  }

  function HandleServerHelloDone(env: Env, c: Ctx, state: State, data: bytes): (r: R)
    requires HasHs(c)
    ensures SamePeer(c, r.ctx)
  {
    if !state.WaitServerHelloDone? then R(c, Fatal(UNEXPECTED_MESSAGE))
    else
      var r := CheckHelloDone(env, c, data);
      if r.err < 0 then r
      else R(Log(SetState(r.ctx, WaitChangeCipherSpec), GotHelloDone), r.err)
  }

  function HandleCertificateRequest(env: Env, c: Ctx, state: State, data: bytes): (r: R)
    requires HasHs(c)
    ensures SamePeer(c, r.ctx)
  {
    if !state.WaitServerHelloDone? then R(c, Fatal(UNEXPECTED_MESSAGE))
    else
      var c1 := FeedHs(c, data);
      if env.certificateRequestOk(data)
      then R(Log(SetHs(c1, Hs(c1).(clientAuth := true)), GotCertificateRequest), 0)
      else R(c1, Fatal(HANDSHAKE_FAILURE))
  }

  /** Does not count the message: the handshake is over. */
  function HandleFinished(env: Env, c: Ctx, role: Role, state: State, data: bytes): R
    requires HasHs(c)
  {
    if !state.WaitFinished? then R(c, Fatal(UNEXPECTED_MESSAGE))
    else
      var err := CheckFinished(env, c, data);
      if err < 0 then R(c, err)
      else
        var r := if role.Server? then ServerFinish(env, c, data) else R(c, err);
        if r.err < 0 then r
        else R(Log(SetPeer(r.ctx, P(r.ctx).(hs := None, state := Connected)), GotFinished), r.err)
  }

  function ServerFinish(env: Env, c: Ctx, data: bytes): (r: R)
    requires HasHs(c)
    ensures Frame(c, r.ctx)
  {
    var r1 := SendCcs(env, FeedHs(c, data));
    if r1.err < 0 then r1
    else SendFinished(env, SetPeer(r1.ctx, SwitchParams(P(r1.ctx))), Record.Server)
  }

  function HandleClientKeyExchange(env: Env, c: Ctx, state: State, data: bytes): (r: R)
    requires HasHs(c)
    ensures SamePeer(c, r.ctx)
  {
    if !state.WaitClientKeyExchange? then R(c, Fatal(UNEXPECTED_MESSAGE))
    else
      var r := CheckClientKeyExchange(c, data);
      if r.err < 0 then r
      else R(Log(SetState(FeedHs(r.ctx, data), WaitChangeCipherSpec), GotClientKeyExchange), r.err)
  }

  /** The peer that a good ClientHello is handled for: a new one, unless it renegotiates. */
  function PeerForHello(c: Ctx, state: State, data: bytes): (c': Ctx)
    ensures HasHs(c')
  {
    var p := NewPeer(Record.Server);
    var c1 := if c.peer.None? || state.WaitClientHello? then
                SetPeer(c, p.(slot0 := Some(p.slot0.value.(rseq := 1))))
              else c;
    var c2 := if P(c1).hs.None? then SetHs(c1, NewHandshake(1, MsgSeq(data))) else c1;
    SetHs(c2, Hs(c2).(transcript := []))
  }

  function AnswerClientHello(env: Env, c: Ctx, data: bytes): (r: R)
    requires HasHs(c)
    ensures SamePeer(c, r.ctx)
    ensures if r.err < 0 then SameState(c, r.ctx)
            else P(r.ctx).state == WaitClientKeyExchange && P(r.ctx).log == P(c).log + [GotClientHello]
  {
    var r1 := UpdateParameters(env, c, data);
    if r1.err < 0 then r1
    else
      var r2 := SendServerHelloMsgs(env, FeedHs(r1.ctx, data));
      if r2.err < 0 then r2
      else R(Log(SetState(r2.ctx, WaitClientKeyExchange), GotClientHello), r2.err)
  }

  /** The CLIENT_HELLO case; a good one may replace the peer. */
  function HandleClientHello(env: Env, c: Ctx, state: State, data: bytes): R
    requires state.Connected? ==> c.peer.Some?
  {
    if (c.peer.Some? && !state.Connected? && !state.WaitClientHello?)
       || (c.peer.None? && !state.WaitClientHello?)
    then R(c, Fatal(UNEXPECTED_MESSAGE))
    else
      var r := VerifyPeer(env, c, state, data);
      if r.err != 0 then r else AnswerClientHello(env, PeerForHello(r.ctx, state, data), data)
  }

  function HandleHelloRequest(env: Env, c: Ctx): R
    requires c.peer.Some?
  {
    var c1 := if P(c).hs.None? then SetHs(c, NewHandshake(0, 0)) else c;
    var r := SendClientHello(env, c1, []);
    if r.err < 0 then r else R(SetState(r.ctx, ClientHello), r.err)
  }

  /** The messages the handler takes from a peer without handshake parameters. */
  predicate Opening(htype: byte) { htype == HT_CLIENT_HELLO || htype == HT_HELLO_REQUEST }

  function CountMessage(r: R): R
  {
    if HasHs(r.ctx) && r.err >= 0
    then r.(ctx := SetHs(r.ctx, Hs(r.ctx).(mseqR := (Hs(r.ctx).mseqR + 1) % 0x1_0000)))
    else r
  }

  predicate CanHandle(c: Ctx, state: State, htype: byte)
  {
    && (c.peer.None? ==> htype == HT_CLIENT_HELLO)
    && (c.peer.Some? && P(c).hs.None? ==> Opening(htype))
    && (state.Connected? ==> c.peer.Some?)
  }

  /** The cases that fall through to the end of the switch or leave with an error. */
  function HandleByType(env: Env, c: Ctx, state: State, data: bytes): R
    requires CanHandle(c, state, MsgType(data)) && MsgType(data) != HT_FINISHED
  {
    var htype := MsgType(data);
    if htype == HT_HELLO_VERIFY_REQUEST then HandleHelloVerify(env, c, state, data)
    else if htype == HT_SERVER_HELLO then HandleServerHello(env, c, state, data)
    else if htype == HT_SERVER_KEY_EXCHANGE then HandleServerKeyExchange(env, c, state, data)
    else if htype == HT_SERVER_HELLO_DONE then HandleServerHelloDone(env, c, state, data)
    else if htype == HT_CERTIFICATE_REQUEST then HandleCertificateRequest(env, c, state, data)
    else if htype == HT_CLIENT_KEY_EXCHANGE then HandleClientKeyExchange(env, c, state, data)
    else if htype == HT_CLIENT_HELLO then HandleClientHello(env, c, state, data)
    else if htype == HT_HELLO_REQUEST then HandleHelloRequest(env, c)
    else R(c, Fatal(UNEXPECTED_MESSAGE))
  }

  /** handle_handshake_msg */
  function HandleMessage(env: Env, c: Ctx, role: Role, state: State, data: bytes): R
    requires CanHandle(c, state, MsgType(data))
  {
    if MsgType(data) == HT_FINISHED then HandleFinished(env, c, role, state, data)
    else if MsgType(data) == HT_HELLO_REQUEST && !state.Connected? then R(c, 0)
    else CountMessage(HandleByType(env, c, state, data))
  }
}
