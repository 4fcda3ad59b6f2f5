/**
 * The session as the object it is in C: a peer that is updated in place by the
 * statements of dtls.c and peer.h, each method against its function in Session.
 */
module Endpoint {
  import opened Bytes
  import opened HandshakeCodec
  import opened Engine
  import opened Session
  import Prf
  import Record
  import Replay

  /** netq: walks the queue for a message with this number. */
  method Search(queue: seq<bytes>, mseq: nat) returns (i: nat)
    ensures i <= |queue|
    ensures FindQueued(queue, mseq) == if i < |queue| then Some(i) else None
  {
    hide MsgSeq;
    i := 0;
    while i < |queue| && MsgSeq(queue[i]) != mseq
      invariant i <= |queue|
      invariant forall j :: 0 <= j < i ==> MsgSeq(queue[j]) != mseq
    {
      i := i + 1;
    }
  }

  /**
   * The loop over the cipher suites. It ends at i == 0, so a list of odd length
   * is left by what more says: behind the message there is nothing known.
   */
  method ScanCiphers(data: bytes, at: nat, n: nat) returns (ok: bool, cipher: nat)
    ensures ok == FindCipher(data, at, n)
    ensures ok ==> cipher == PSK_WITH_AES_128_CCM_8
  {
    hide U16;
    var i: int, p: nat := n, at;
    var more := true;
    ok, cipher := false, NULL_WITH_NULL_NULL;
    while i != 0 && !ok && more
      invariant ok ==> cipher == PSK_WITH_AES_128_CCM_8
      invariant FindCipher(data, at, n) == (ok || (more && FindCipher(data, p, i)))
      decreases if i > 0 then i else 0, if p < |data| then |data| - p else 0, more
    {
      cipher := U16(data, p);
      ok := KnownCipher(cipher);
      more := i > 0 || p < |data|;
      i, p := i - 2, p + 2;
    }
  }

  /** The loop over the compression methods. */
  method ScanCompression(data: bytes, at: nat, n: nat) returns (ok: bool)
    ensures ok == FindCompression(data, at, n).Some?
  {
    var i, p := n, at;
    ok := false;
    while i != 0 && !ok
      invariant FindCompression(data, at, n).Some? == (ok || FindCompression(data, p, i).Some?)
    {
      if HandshakeCodec.At(data, p) == 0 {
        ok := true;
      }
      i, p := i - 1, p + 1;
    }
  }

  class Endpoint {
    var peer: Option<Peer>
    var draws: nat
    var out: seq<Out>

    function St(): Ctx reads this { Ctx(peer, draws, out) }

    constructor ()
      ensures St() == Empty()
    {
      peer, draws, out := None, 0, [];
    }

    // ----- peer.h -----

    /** dtls_security_params_next */
    method Next()
      requires peer.Some?
      modifies this`peer
      ensures peer == Some(NextParams(old(peer.value)))
    {
      var p := peer.value;
      var epoch := if p.slot0.Some? then p.slot0.value.epoch else 0;
      p := p.(slot1 := Some(NewSecurity(0)));
      p := p.(slot1 := Some(p.slot1.value.(epoch := (epoch + 1) % 0x1_0000)));
      peer := Some(p);
    }

    /** dtls_security_params_free_other */
    method FreeOtherParams()
      requires peer.Some?
      modifies this`peer
      ensures peer == Some(FreeOther(old(peer.value)))
    {
      var security0, security1 := peer.value.slot0, peer.value.slot1;
      if security0.None? || security1.None? || security0.value.epoch < security1.value.epoch {
        return;
      }
      peer := Some(peer.value.(slot1 := None));
    }

    /** dtls_security_params_switch */
    method Switch()
      requires peer.Some?
      modifies this`peer
      ensures peer == Some(SwitchParams(old(peer.value)))
    {
      var security := peer.value.slot1;
      peer := Some(peer.value.(slot1 := peer.value.slot0));
      peer := Some(peer.value.(slot0 := security));
    }

    // ----- dtls.c -----

    /** dtls_send: the next number of slot 0 is used up, whatever write returns. */
    method SendRecord(env: Env, ctype: byte, payload: bytes) returns (err: int)
      requires peer.Some?
      modifies this
      ensures var r := Send(env, old(St()), ctype, payload); St() == r.ctx && err == r.err
    {
      var o := Out(true, ctype, 0, 0, Record.NullSuite, ZeroKeys, payload);
      var security := peer.value.slot0;
      if security.Some? {
        var s := security.value;
        o := Out(false, ctype, s.epoch, s.rseq, s.suite, s.keyBlock, payload);
        peer := Some(peer.value.(slot0 := Some(s.(rseq := s.rseq + 1)), sent := peer.value.sent + [(s.epoch, s.rseq)]));
      }
      err := env.sendResult(|out|);
      out := out + [o];
    }

    /** dtls_alert_send_from_err */
    method AlertError(env: Env, err: int)
      modifies this
      ensures St() == AlertFromErr(env, old(St()), err)
    {
      if peer.None? {
        return;
      }
      var res;
      if err < -256 && err > -768 {
        peer := Some(peer.value.(state := Closing));
        res := SendRecord(env, Record.CT_ALERT, [-err / 256, -err % 256]);
      } else if err == -1 {
        peer := Some(peer.value.(state := Closing));
        res := SendRecord(env, Record.CT_ALERT, [LEVEL_FATAL, INTERNAL_ERROR]);
      }
    }

    /** dtls_destroy_peer */
    method DestroyPeer(env: Env)
      requires peer.Some?
      modifies this
      ensures St() == Destroy(env, old(St()))
    {
      if !peer.value.state.Closed? && !peer.value.state.Closing? {
        var res := SendRecord(env, Record.CT_ALERT, [LEVEL_FATAL, CLOSE_NOTIFY]);
      }
      peer := None;
    }

    /** handle_alert */
    method AlertReceived(env: Env, data: bytes) returns (err: int)
      modifies this
      ensures var r := HandleAlert(env, old(St()), data); St() == r.ctx && err == r.err
    {
      if |data| < 2 {
        return Fatal(DECODE_ERROR);
      }
      if peer.None? {
        return 0;
      }
      if data[0] != LEVEL_FATAL && data[1] != CLOSE_NOTIFY {
        return 0;
      }
      if data[1] == CLOSE_NOTIFY && !peer.value.state.Closing? {
        var res := SendRecord(env, Record.CT_ALERT, [LEVEL_FATAL, CLOSE_NOTIFY]);
      }
      peer := None;
      return 1;
    }

    /** calculate_key_block: the next parameters are taken before it is known whether there is a key. */
    method KeyBlock(env: Env) returns (err: int)
      requires HasHs(St())
      modifies this
      ensures var r := CalculateKeyBlock(env, old(St())); St() == r.ctx && err == r.err
    {
      hide Prf.MasterSecret, Prf.KeyBlockOf;
      Next();
      var hs := peer.value.hs.value;
      if hs.cipher == NULL_WITH_NULL_NULL {
        return Fatal(INSUFFICIENT_SECURITY);
      }
      if hs.cipher != PSK_WITH_AES_128_CCM_8 {
        return Fatal(INTERNAL_ERROR);
      }
      var psk := env.key(hs.identity);
      if psk.NoPsk? {
        return psk.code;
      }
      if 2 * (2 + |psk.bytes|) > Record.KEYBLOCK_LENGTH {
        return Fatal(INTERNAL_ERROR);
      }
      var master := Prf.MasterSecret(env.hash, psk.bytes, hs.clientRandom, hs.serverRandom);
      var security := peer.value.slot1.value;
      security := security.(keyBlock := Prf.KeyBlockOf(env.hash, psk.bytes, hs.clientRandom, hs.serverRandom));
      security := security.(suite := Record.PskCcm8, rseq := 0);
      peer := Some(peer.value.(slot1 := Some(security), hs := Some(hs.(master := master))));
      return 0;
    }

    /** dtls_send_handshake_msg_hash for a peer */
    method SendMessage(env: Env, htype: byte, body: bytes, addHash: bool) returns (err: int)
      requires peer.Some? && (addHash ==> peer.value.hs.Some?)
      modifies this
      ensures var r := SendHandshake(env, old(St()), htype, body, addHash); St() == r.ctx && err == r.err
    {
      hide Send, HandshakeCodec.Message;
      if peer.value.hs.None? {
        err := SendRecord(env, Record.CT_HANDSHAKE, HandshakeCodec.Message(htype, 0, body));
        return;
      }
      var hs := peer.value.hs.value;
      var m := HandshakeCodec.Message(htype, hs.mseqS, body);
      hs := hs.(mseqS := (hs.mseqS + 1) % 0x1_0000);
      if addHash {
        hs := Feed(hs, m);
      }
      peer := Some(peer.value.(hs := Some(hs)));
      err := SendRecord(env, Record.CT_HANDSHAKE, m);
    }

    /** update_hs_hash */
    method UpdateHash(data: bytes)
      requires HasHs(St())
      modifies this`peer
      ensures St() == FeedHs(old(St()), data)
    {
      peer := Some(peer.value.(hs := Some(Feed(peer.value.hs.value, data))));
    }

    // ----- client side -----

    /** dtls_send_client_hello: a new random only without a cookie; hashing begins with the cookie. */
    method SendHello(env: Env, cookie: bytes) returns (err: int)
      requires HasHs(St())
      modifies this
      ensures var r := SendClientHello(env, old(St()), cookie); St() == r.ctx && err == r.err
    {
      hide SendHandshake, ClientHelloBody;
      if |cookie| > COOKIE_LENGTH_MAX {
        return Fatal(HANDSHAKE_FAILURE);
      }
      var hs := peer.value.hs.value;
      if cookie == [] {
        hs := hs.(clientRandom := env.random(draws));
        draws := draws + 1;
      }
      if cookie != [] {
        hs := hs.(transcript := []);
      }
      peer := Some(peer.value.(hs := Some(hs)));
      err := SendMessage(env, HT_CLIENT_HELLO, ClientHelloBody(hs.clientRandom, cookie), cookie != []);
    }

    method HelloVerifyReceived(env: Env, state: State, data: bytes) returns (err: int)
      requires HasHs(St())
      modifies this
      ensures var r := HandleHelloVerify(env, old(St()), state, data); St() == r.ctx && err == r.err
    {
      hide SendClientHello, At, Sub;
      if !state.ClientHello? {
        return Fatal(UNEXPECTED_MESSAGE);
      }
      if |data| < HS_LENGTH + HV_LENGTH {
        return Fatal(DECODE_ERROR);
      }
      err := SendHello(env, Sub(data, HS_LENGTH + HV_LENGTH, HandshakeCodec.At(data, HS_LENGTH + 2)));
      if err < 0 {
        return;
      }
      peer := Some(peer.value.(log := peer.value.log + [GotVerify]));
    }

    /** check_server_hello */
    method ReadServerHello(env: Env, data: bytes) returns (err: int)
      requires HasHs(St())
      modifies this`peer
      ensures var r := CheckServerHello(env, old(St()), data); St() == r.ctx && err == r.err
    {
      hide At, U16, Sub;
      if |data| < HS_LENGTH + HS_LENGTH {
        return Fatal(DECODE_ERROR);
      }
      UpdateHash(data);
      var at, left := HS_LENGTH, |data| - HS_LENGTH;
      if U16(data, at) != Record.DTLS_VERSION {
        return Fatal(PROTOCOL_VERSION);
      }
      at, left := at + 2, left - 2;
      var hs := peer.value.hs.value;
      hs := hs.(serverRandom := Sub(data, at, RANDOM_LENGTH));
      peer := Some(peer.value.(hs := Some(hs)));
      at, left := at + RANDOM_LENGTH, left - RANDOM_LENGTH;
      var skip := HandshakeCodec.At(data, at) + 1;
      if Left(left) < skip {
        return Fatal(DECODE_ERROR);
      }
      at, left := at + skip, left - skip;
      hs := hs.(cipher := U16(data, at));
      peer := Some(peer.value.(hs := Some(hs)));
      if !KnownCipher(hs.cipher) {
        return Fatal(INSUFFICIENT_SECURITY);
      }
      at, left := at + 2, left - 2;
      if HandshakeCodec.At(data, at) != 0 {
        return Fatal(INSUFFICIENT_SECURITY);
      }
      left := left - 1;
      if Left(left) >= 2 && !env.extensionsOk(data, false) {
        return Fatal(HANDSHAKE_FAILURE);
      }
      return 0;
    }

    method ServerHelloReceived(env: Env, state: State, data: bytes) returns (err: int)
      requires HasHs(St())
      modifies this`peer
      ensures var r := HandleServerHello(env, old(St()), state, data); St() == r.ctx && err == r.err
    {
      hide CheckServerHello;
      if !state.ClientHello? {
        return Fatal(UNEXPECTED_MESSAGE);
      }
      err := ReadServerHello(env, data);
      if err < 0 {
        return;
      }
      peer := Some(peer.value.(state := WaitServerHelloDone, log := peer.value.log + [GotServerHello]));
    }

    /** check_server_key_exchange_psk */
    method ReadHint(data: bytes) returns (err: int)
      requires HasHs(St())
      modifies this`peer
      ensures var r := CheckKeyExchange(old(St()), data); St() == r.ctx && err == r.err
    {
      hide U16, Sub;
      UpdateHash(data);
      if |data| < HS_LENGTH + 2 {
        return Fatal(DECODE_ERROR);
      }
      var len := U16(data, HS_LENGTH);
      if len != |data| - HS_LENGTH - 2 {
        return Fatal(DECODE_ERROR);
      }
      if len > IDENTITY_MAX {
        return Fatal(INTERNAL_ERROR);
      }
      peer := Some(peer.value.(hs := Some(peer.value.hs.value.(identity := Sub(data, HS_LENGTH + 2, len)))));
      return 0;
    }

    /** The cipher chosen so far decides what is checked, if anything. */
    method KeyExchangeReceived(env: Env, state: State, data: bytes) returns (err: int)
      requires HasHs(St())
      modifies this`peer
      ensures var r := HandleServerKeyExchange(env, old(St()), state, data); St() == r.ctx && err == r.err
    {
      hide CheckKeyExchange;
      err := 0;
      if peer.value.hs.value.cipher == ECDHE_ECDSA_WITH_AES_128_CCM_8 {
        return Fatal(UNEXPECTED_MESSAGE);
      }
      if peer.value.hs.value.cipher == PSK_WITH_AES_128_CCM_8 {
        if !state.WaitServerHelloDone? {
          return Fatal(UNEXPECTED_MESSAGE);
        }
        err := ReadHint(data);
      }
      if err < 0 {
        return;
      }
      peer := Some(peer.value.(state := WaitServerHelloDone, log := peer.value.log + [GotKeyExchange]));
    }

    /** dtls_send_client_key_exchange */
    method SendClientKey(env: Env) returns (err: int)
      requires HasHs(St())
      modifies this
      ensures var r := SendClientKeyExchange(env, old(St())); St() == r.ctx && err == r.err
    {
      hide SendHandshake, IdentityBody;
      var hs := peer.value.hs.value;
      if hs.cipher == NULL_WITH_NULL_NULL {
        return Fatal(INSUFFICIENT_SECURITY);
      }
      if hs.cipher != PSK_WITH_AES_128_CCM_8 {
        return Fatal(INTERNAL_ERROR);
      }
      var id := env.identity(hs.identity);
      if id.NoPsk? {
        return id.code;
      }
      peer := Some(peer.value.(hs := Some(hs.(identity := id.bytes))));
      err := SendMessage(env, HT_CLIENT_KEY_EXCHANGE, IdentityBody(id.bytes), true);
    }

    /** dtls_send_finished */
    method SendFinishedMessage(env: Env, side: Role) returns (err: int)
      requires HasHs(St())
      modifies this
      ensures var r := SendFinished(env, old(St()), side); St() == r.ctx && err == r.err
    {
      hide SendHandshake, Prf.FinishedData;
      var hs := peer.value.hs.value;
      err := SendMessage(env, HT_FINISHED, Prf.FinishedData(env.hash, hs.master, side, hs.transcript), true);
    }

    /** check_server_hellodone: the client's last flight */
    method AnswerHelloDone(env: Env, data: bytes) returns (err: int)
      requires HasHs(St())
      modifies this
      ensures var r := CheckHelloDone(env, old(St()), data); St() == r.ctx && err == r.err
    {
      hide SendClientKeyExchange, CalculateKeyBlock, Send, SendFinished, SwitchParams;
      UpdateHash(data);
      if peer.value.hs.value.clientAuth {
        return -1;
      }
      err := SendClientKey(env);
      if err < 0 {
        return;
      }
      err := KeyBlock(env);
      if err < 0 {
        return;
      }
      err := SendRecord(env, Record.CT_CHANGE_CIPHER_SPEC, [1]);
      if err < 0 {
        return;
      }
      SwitchKeepsHs(peer.value);
      Switch();
      err := SendFinishedMessage(env, Record.Client);
    }

    static lemma SwitchKeepsHs(p: Peer)
      ensures SwitchParams(p).hs == p.hs
    {
    }

    method HelloDoneReceived(env: Env, state: State, data: bytes) returns (err: int)
      requires HasHs(St())
      modifies this
      ensures var r := HandleServerHelloDone(env, old(St()), state, data); St() == r.ctx && err == r.err
    {
      hide CheckHelloDone;
      if !state.WaitServerHelloDone? {
        return Fatal(UNEXPECTED_MESSAGE);
      }
      err := AnswerHelloDone(env, data);
      if err < 0 {
        return;
      }
      peer := Some(peer.value.(state := WaitChangeCipherSpec, log := peer.value.log + [GotHelloDone]));
    }

    method CertificateRequested(env: Env, state: State, data: bytes) returns (err: int)
      requires HasHs(St())
      modifies this`peer
      ensures var r := HandleCertificateRequest(env, old(St()), state, data); St() == r.ctx && err == r.err
    {
      if !state.WaitServerHelloDone? {
        return Fatal(UNEXPECTED_MESSAGE);
      }
      UpdateHash(data);
      if !env.certificateRequestOk(data) {
        return Fatal(HANDSHAKE_FAILURE);
      }
      peer := Some(peer.value.(hs := Some(peer.value.hs.value.(clientAuth := true)),
                               log := peer.value.log + [GotCertificateRequest]));
      return 0;
    }

    /** Either side's Finished; the server answers with its own. The handshake is over. */
    method FinishedReceived(env: Env, role: Role, state: State, data: bytes) returns (err: int)
      requires HasHs(St())
      modifies this
      ensures var r := HandleFinished(env, old(St()), role, state, data); St() == r.ctx && err == r.err
    {
      hide CheckFinished, Send, SendFinished, SwitchParams;
      if !state.WaitFinished? {
        return Fatal(UNEXPECTED_MESSAGE);
      }
      err := CheckFinished(env, St(), data);
      if err < 0 {
        return;
      }
      if role.Server? {
        UpdateHash(data);
        err := SendRecord(env, Record.CT_CHANGE_CIPHER_SPEC, [1]);
        if err < 0 {
          return;
        }
        SwitchKeepsHs(peer.value);
        Switch();
        err := SendFinishedMessage(env, Record.Server);
        if err < 0 {
          return;
        }
      }
      peer := Some(peer.value.(hs := None));
      peer := Some(peer.value.(state := Connected, log := peer.value.log + [GotFinished]));
    }

    // ----- server side -----

    /** check_client_keyexchange and the case around it */
    method ClientKeyReceived(env: Env, state: State, data: bytes) returns (err: int)
      requires HasHs(St())
      modifies this`peer
      ensures var r := HandleClientKeyExchange(env, old(St()), state, data); St() == r.ctx && err == r.err
    {
      hide U16, Sub;
      if !state.WaitClientKeyExchange? {
        return Fatal(UNEXPECTED_MESSAGE);
      }
      if peer.value.hs.value.cipher == PSK_WITH_AES_128_CCM_8 {
        if |data| < HS_LENGTH + 2 {
          return Fatal(HANDSHAKE_FAILURE);
        }
        var len := U16(data, HS_LENGTH);
        if HS_LENGTH + 2 + len != |data| {
          return Fatal(HANDSHAKE_FAILURE);
        }
        if len > IDENTITY_MAX {
          return Fatal(INTERNAL_ERROR);
        }
        peer := Some(peer.value.(hs := Some(peer.value.hs.value.(identity := Sub(data, HS_LENGTH + 2, len)))));
      }
      UpdateHash(data);
      peer := Some(peer.value.(state := WaitChangeCipherSpec, log := peer.value.log + [GotClientKeyExchange]));
      return 0;
    }

    /** dtls_verify_peer. Where the cookie cannot be fetched, what is returned is the result of making one. */
    method Verify(env: Env, state: State, data: bytes) returns (err: int)
      requires state.Connected? ==> peer.Some?
      modifies this
      ensures var r := VerifyPeer(env, old(St()), state, data); St() == r.ctx && err == r.err
    {
      hide CreateCookie, GetCookie, SendHandshake, HandshakeCodec.Message, HelloVerifyBody;
      var mine := CreateCookie(env, data);
      err := if mine.NoPsk? then mine.code else 0;
      if err < 0 {
        return;
      }
      var cookie := GetCookie(data);
      if cookie.NoPsk? {
        return;
      }
      if cookie.bytes == mine.bytes {
        return 0;
      }
      var body := HelloVerifyBody(mine.bytes);
      if state.Connected? {
        err := SendMessage(env, HT_HELLO_VERIFY_REQUEST, body, false);
      } else {
        err := env.sendResult(|out|);
        out := out + [Out(true, Record.CT_HANDSHAKE, 0, 0, Record.NullSuite, ZeroKeys,
                          HandshakeCodec.Message(HT_HELLO_VERIFY_REQUEST, 0, body))];
      }
    }

    /** dtls_update_parameters */
    method Update(env: Env, data: bytes) returns (err: int)
      requires HasHs(St())
      modifies this`peer
      ensures var r := UpdateParameters(env, old(St()), data); St() == r.ctx && err == r.err
    {
      hide At, U16, Sub, FindCipher, FindCompression;
      var failed := if peer.value.state.Connected? then Warning(NO_RENEGOTIATION) else Fatal(HANDSHAKE_FAILURE);
      var hs := peer.value.hs.value.(clientRandom := Sub(data, HS_LENGTH + 2, RANDOM_LENGTH));
      peer := Some(peer.value.(hs := Some(hs)));
      var at := HS_LENGTH + CH_LENGTH;
      at := at + HandshakeCodec.At(data, at) + 1;
      if |data| < at {
        return failed;
      }
      at := at + HandshakeCodec.At(data, at) + 1;
      if |data| < at {
        return failed;
      }
      var i := U16(data, at);
      if |data| - at < i + 2 {
        if peer.value.slot0.None? || peer.value.slot0.value.suite.NullSuite? {
          return failed;
        }
        peer := Some(peer.value.(hs := Some(hs.(cipher := PSK_WITH_AES_128_CCM_8))));
        return 0;
      }
      var ok, cipher := ScanCiphers(data, at + 2, i);
      hs := hs.(cipher := if ok then cipher else NULL_WITH_NULL_NULL);
      peer := Some(peer.value.(hs := Some(hs)));
      if !ok {
        return failed;
      }
      at := at + 2 + i;
      if |data| - at < 1 {
        return 0;
      }
      i := HandshakeCodec.At(data, at);
      if |data| - at < i + 1 {
        return failed;
      }
      ok := ScanCompression(data, at + 1, i);
      if !ok {
        return failed;
      }
      at := at + 1 + i;
      if |data| - at >= 2 && !env.extensionsOk(data, true) {
        return failed;
      }
      return 0;
    }

    /** dtls_send_server_hello_msgs */
    method SendHelloMessages(env: Env) returns (err: int)
      requires HasHs(St())
      modifies this
      ensures var r := SendServerHelloMsgs(env, old(St())); St() == r.ctx && err == r.err
    {
      hide SendHandshake, ServerHelloBody, IdentityBody;
      var hs := peer.value.hs.value.(serverRandom := env.random(draws));
      draws := draws + 1;
      peer := Some(peer.value.(hs := Some(hs)));
      err := SendMessage(env, HT_SERVER_HELLO, ServerHelloBody(hs.serverRandom, hs.cipher), true);
      if err < 0 {
        return;
      }
      if env.hint.NoPsk? {
        return env.hint.code;
      }
      if |env.hint.bytes| > 0 {
        err := SendMessage(env, HT_SERVER_KEY_EXCHANGE, IdentityBody(env.hint.bytes), true);
        if err < 0 {
          return;
        }
      }
      err := SendMessage(env, HT_SERVER_HELLO_DONE, [], true);
      if err < 0 {
        return;
      }
      return 0;
    }

    /** The peer that is made, or kept, for a good ClientHello. */
    method MakePeer(state: State, data: bytes)
      modifies this`peer
      ensures St() == PeerForHello(old(St()), state, data)
    {
      hide MsgSeq;
      if peer.Some? && state.WaitClientHello? {
        peer := None;
      }
      if peer.None? {
        var p := NewPeer(Record.Server);
        peer := Some(p.(slot0 := Some(p.slot0.value.(rseq := 1))));
      }
      if peer.value.hs.None? {
        peer := Some(peer.value.(hs := Some(NewHandshake(1, MsgSeq(data)))));
      }
      peer := Some(peer.value.(hs := Some(peer.value.hs.value.(transcript := []))));
    }

    method HelloReceived(env: Env, state: State, data: bytes) returns (err: int)
      requires state.Connected? ==> peer.Some?
      modifies this
      ensures var r := HandleClientHello(env, old(St()), state, data); St() == r.ctx && err == r.err
    {
      hide VerifyPeer, PeerForHello, UpdateParameters, SendServerHelloMsgs;
      if (peer.Some? && !state.Connected? && !state.WaitClientHello?) || (peer.None? && !state.WaitClientHello?) {
        return Fatal(UNEXPECTED_MESSAGE);
      }
      err := Verify(env, state, data);
      if err != 0 {
        return;
      }
      MakePeer(state, data);
      err := Update(env, data);
      if err < 0 {
        return;
      }
      UpdateHash(data);
      err := SendHelloMessages(env);
      if err < 0 {
        return;
      }
      peer := Some(peer.value.(state := WaitClientKeyExchange, log := peer.value.log + [GotClientHello]));
    }

    method HelloRequestReceived(env: Env) returns (err: int)
      requires peer.Some?
      modifies this
      ensures var r := HandleHelloRequest(env, old(St())); St() == r.ctx && err == r.err
    {
      hide SendClientHello;
      if peer.value.hs.None? {
        peer := Some(peer.value.(hs := Some(NewHandshake(0, 0))));
      }
      err := SendHello(env, []);
      if err < 0 {
        return;
      }
      peer := Some(peer.value.(state := ClientHello));
    }

    /** The cases of the switch that are counted at its end. */
    method MessageOfType(env: Env, state: State, data: bytes) returns (err: int)
      requires CanHandle(St(), state, MsgType(data)) && MsgType(data) != HT_FINISHED
      modifies this
      ensures var r := HandleByType(env, old(St()), state, data); St() == r.ctx && err == r.err
    {
      hide MsgType, HandleHelloVerify, HandleServerHello, HandleServerKeyExchange, HandleServerHelloDone,
           HandleCertificateRequest, HandleClientKeyExchange, HandleClientHello, HandleHelloRequest, SamePeer;
      var htype := MsgType(data);
      if htype == HT_HELLO_VERIFY_REQUEST {
        err := HelloVerifyReceived(env, state, data);
      } else if htype == HT_SERVER_HELLO {
        err := ServerHelloReceived(env, state, data);
      } else if htype == HT_SERVER_KEY_EXCHANGE {
        err := KeyExchangeReceived(env, state, data);
      } else if htype == HT_SERVER_HELLO_DONE {
        err := HelloDoneReceived(env, state, data);
      } else if htype == HT_CERTIFICATE_REQUEST {
        err := CertificateRequested(env, state, data);
      } else if htype == HT_CLIENT_KEY_EXCHANGE {
        err := ClientKeyReceived(env, state, data);
      } else if htype == HT_CLIENT_HELLO {
        err := HelloReceived(env, state, data);
      } else if htype == HT_HELLO_REQUEST {
        err := HelloRequestReceived(env);
      } else {
        err := Fatal(UNEXPECTED_MESSAGE);
      }
    }

    /** handle_handshake_msg: a Finished is not counted, nor is a HelloRequest that is ignored. */
    method Message(env: Env, role: Role, state: State, data: bytes) returns (err: int)
      requires CanHandle(St(), state, MsgType(data))
      modifies this
      ensures var r := HandleMessage(env, old(St()), role, state, data); St() == r.ctx && err == r.err
    {
      hide MsgType, HandleByType, HandleFinished;
      if MsgType(data) == HT_FINISHED {
        err := FinishedReceived(env, role, state, data);
        return;
      }
      if MsgType(data) == HT_HELLO_REQUEST && !state.Connected? {
        return 0;
      }
      err := MessageOfType(env, state, data);
      if peer.Some? && peer.value.hs.Some? && err >= 0 {
        var hs := peer.value.hs.value;
        peer := Some(peer.value.(hs := Some(hs.(mseqR := (hs.mseqR + 1) % 0x1_0000))));
      }
    }

    // ----- the reorder queue -----

    method RemoveQueued(i: nat)
      requires HasHs(St()) && i < |Hs(St()).queue|
      modifies this`peer
      ensures St() == WithQueue(old(St()), Without(Hs(old(St())).queue, i))
    {
      var hs := peer.value.hs.value;
      peer := Some(peer.value.(hs := Some(hs.(queue := hs.queue[..i] + hs.queue[i + 1..]))));
    }

    /** Takes out the queued message that is next, if there is one, and handles it. */
    method HandleQueued(env: Env, role: Role, res: int) returns (next: bool, err: int)
      requires HasHs(St())
      modifies this
      ensures var c, i := old(St()), FindQueued(Hs(old(St())).queue, Hs(old(St())).mseqR);
              if i.None? then !next && err == res && St() == c
              else
                var c1 := WithQueue(c, Without(Hs(c).queue, i.value));
                var r := HandleMessage(env, c1, role, P(c1).state, Hs(c).queue[i.value]);
                next && err == r.err && St() == r.ctx
    {
      hide HandleMessage, FindQueued, MsgType;
      var hs := peer.value.hs.value;
      var i := Search(hs.queue, hs.mseqR);
      if i == |hs.queue| {
        return false, res;
      }
      var data := hs.queue[i];
      RemoveQueued(i);
      err := Message(env, role, peer.value.state, data);
      next := true;
    }

    /** One round of the loop is one step of Drain, and the queue gets shorter. */
    lemma DrainUnfolds(env: Env, c: Ctx, role: Role, res: int, i: nat, r: R)
      requires HasHs(c) && FindQueued(Hs(c).queue, Hs(c).mseqR) == Some(i)
      requires var c1 := WithQueue(c, Without(Hs(c).queue, i));
               r == HandleMessage(env, c1, role, P(c1).state, Hs(c).queue[i])
      ensures Drain(env, c, role, res) == if r.err < 0 then r else Drain(env, r.ctx, role, r.err)
      ensures HasHs(r.ctx) ==> |Hs(r.ctx).queue| < |Hs(c).queue|
    {
      var c1 := WithQueue(c, Without(Hs(c).queue, i));
      HandleMessageQueue(env, c1, role, P(c1).state, Hs(c).queue[i]);
      hide HandleMessage;
    }

    lemma DrainEnds(env: Env, c: Ctx, role: Role, res: int)
      requires HasHs(c) ==> FindQueued(Hs(c).queue, Hs(c).mseqR).None?
      ensures Drain(env, c, role, res) == R(c, res)
    {
      hide HandleMessage;
    }

    /** The loop of handle_handshake over the reorder queue. */
    method DrainQueue(env: Env, role: Role, res: int) returns (err: int)
      modifies this
      ensures var r := Drain(env, old(St()), role, res); St() == r.ctx && err == r.err
    {
      hide HandleMessage, FindQueued, MsgType, Drain;
      ghost var goal := Drain(env, St(), role, res);
      err := res;
      var next := true;
      while next && peer.Some? && peer.value.hs.Some?
        invariant if next then Drain(env, St(), role, err) == goal else R(St(), err) == goal
        decreases if HasHs(St()) then |Hs(St()).queue| else 0, next
      {
        ghost var c, was := St(), err;
        next, err := HandleQueued(env, role, err);
        if next {
          DrainUnfolds(env, c, role, was, FindQueued(Hs(c).queue, Hs(c).mseqR).value, R(St(), err));
          if err < 0 {
            return;
          }
        } else {
          DrainEnds(env, c, role, was);
        }
      }
      if next {
        DrainEnds(env, St(), role, err);
      }
    }

    /** handle_handshake */
    method Handshake(env: Env, role: Role, state: State, data: bytes) returns (err: int)
      requires state.Connected? ==> peer.Some?
      modifies this
      ensures var r := HandleHandshake(env, old(St()), role, state, data); St() == r.ctx && err == r.err
    {
      hide HandleMessage, FindQueued, MsgType, MsgSeq, Drain;
      if |data| < HS_LENGTH {
        return Fatal(DECODE_ERROR);
      }
      if peer.None? || peer.value.hs.None? {
        if MsgType(data) != HT_CLIENT_HELLO && peer.None? {
          return Fatal(HANDSHAKE_FAILURE);
        }
        if Opening(MsgType(data)) {
          err := Message(env, role, state, data);
          return;
        }
        return 0;
      }
      var hs := peer.value.hs.value;
      if MsgSeq(data) < hs.mseqR {
        return 0;
      } else if MsgSeq(data) > hs.mseqR {
        if |data| > DTLS_MAX_BUF {
          return 0;
        }
        var i := Search(hs.queue, MsgSeq(data));
        if i < |hs.queue| {
          return 0;
        }
        peer := Some(peer.value.(hs := Some(hs.(queue := hs.queue + [data]))));
        return 0;
      } else {
        err := Message(env, role, state, data);
        if err < 0 {
          return;
        }
        err := DrainQueue(env, role, err);
      }
    }

    /** handle_ccs */
    method Ccs(env: Env, data: bytes) returns (err: int)
      modifies this
      ensures var r := HandleCcs(env, old(St()), data); St() == r.ctx && err == r.err
    {
      hide CalculateKeyBlock;
      if peer.None? || !peer.value.state.WaitChangeCipherSpec? {
        return 0;
      }
      if |data| < 1 || data[0] != 1 {
        return Fatal(DECODE_ERROR);
      }
      if peer.value.role.Server? && peer.value.hs.Some? {
        err := KeyBlock(env);
        if err < 0 {
          return;
        }
      }
      peer := Some(peer.value.(state := WaitFinished, log := peer.value.log + [GotCcs]));
      return 0;
    }

    /** The window around decrypt_verify. */
    method ReceiveRecord(env: Env, packet: bytes) returns (got: Received)
      requires peer.Some? && IsPacket(packet)
      modifies this`peer
      ensures var r := Receive(env, old(peer.value), packet); peer == Some(r.0) && got == r.1
    {
      hide Record.Open, Record.ReadHeader, Replay.VerdictOf, Replay.Next;
      var h := Record.ReadHeader(packet);
      var found := SecurityOf(peer.value, h.epoch);
      if found.None? {
        return Failed;
      }
      var s := found.value;
      var clear := Record.Open(env.aes, peer.value.role, s.suite, s.keyBlock, packet);
      var seen := Replay.Packet(h.seqnum, if clear.Rejected? then -1 else |clear.data|);
      if Replay.VerdictOf(env.machine, s.window, seen) != Replay.Decrypted {
        return Dropped;
      }
      if clear.Cleartext? && s.suite.PskCcm8? {
        FreeOtherParams();
      }
      peer := Some(SetWindow(peer.value, h.epoch, Replay.Next(env.machine, s.window, seen)));
      return Plaintext(clear);
    }

    /** The handshake case of dtls_handle_message. */
    method HandshakeRecord(env: Env, packet: bytes, role: Role, state: State, data: bytes) returns (err: int)
      requires IsPacket(packet) && (state.Connected? ==> peer.Some?)
      modifies this
      ensures var r := DispatchHandshake(env, old(St()), packet, role, state, data); St() == r.ctx && err == r.err
    {
      hide HandleHandshake, AlertFromErr, Record.ReadHeader;
      var role1, state1 := role, state;
      if peer.Some? && ExpectedEpoch(peer.value, role, state) != Record.ReadHeader(packet).epoch {
        if Attempt(peer.value, packet) {
          state1, role1 := WaitClientHello, Record.Server;
        } else {
          return 0;
        }
      }
      err := Handshake(env, role1, state1, data);
      if err < 0 {
        AlertError(env, err);
        return;
      }
      return 0;
    }

    /** dtls_handle_message for one record */
    method HandleMessageRecord(env: Env, packet: bytes) returns (err: int)
      requires IsPacket(packet)
      modifies this
      ensures var r := HandleRecord(env, old(St()), packet); St() == r.ctx && err == r.err
    {
      hide Receive, DispatchHandshake, HandleCcs, HandleAlert, AlertFromErr, Destroy, Attempt;
      var role, state, data: bytes := Record.Server, WaitClientHello, packet[Record.RH_LENGTH..];
      if peer.Some? {
        var got := ReceiveRecord(env, packet);
        match got {
          case Dropped => return 0;
          case Plain(plain) => role, state, data := peer.value.role, peer.value.state, plain;
          case Failed =>
            if !Attempt(peer.value, packet) {
              if BeforeConnected(peer.value.state) {
                AlertError(env, Fatal(DECRYPT_ERROR));
                peer := None;
              }
              return Fatal(DECRYPT_ERROR);
            }
        }
      }
      err := Subprotocol(env, packet, role, state, data);
    }

    /** The switch over the content type. */
    method Subprotocol(env: Env, packet: bytes, role: Role, state: State, data: bytes) returns (err: int)
      requires IsPacket(packet) && (state.Connected? ==> peer.Some?)
      modifies this
      ensures var r := Dispatch(env, old(St()), packet, role, state, data); St() == r.ctx && err == r.err
    {
      hide DispatchHandshake, HandleCcs, HandleAlert, AlertFromErr, Destroy;
      if packet[0] == Record.CT_CHANGE_CIPHER_SPEC {
        err := Ccs(env, data);
        if err < 0 {
          AlertError(env, err);
          if peer.Some? {
            DestroyPeer(env);
          }
        }
      } else if packet[0] == Record.CT_ALERT {
        err := AlertReceived(env, data);
        if err == 1 {
          return -1;
        }
      } else if packet[0] == Record.CT_HANDSHAKE {
        err := HandshakeRecord(env, packet, role, state, data);
      } else if packet[0] == Record.CT_APPLICATION_DATA {
        return if peer.None? then -1 else 0;
      } else {
        return 0;
      }
    }

    // ----- calls of the application -----

    /** dtls_connect for an address without a peer */
    method ConnectPeer(env: Env) returns (err: int)
      requires peer.None?
      modifies this
      ensures var r := Connect(env, old(St())); St() == r.ctx && err == r.err
    {
      hide SendClientHello;
      peer := Some(NewPeer(Record.Client));
      peer := Some(peer.value.(hs := Some(NewHandshake(0, 0))));
      err := SendHello(env, []);
      if err < 0 {
        return;
      }
      peer := Some(peer.value.(state := ClientHello));
    }

    /** dtls_renegotiate */
    method RenegotiatePeer(env: Env) returns (err: int)
      modifies this
      ensures var r := Renegotiate(env, old(St())); St() == r.ctx && err == r.err
    {
      hide SendClientHello, SendHandshake;
      if peer.None? || !peer.value.state.Connected? {
        return -1;
      }
      peer := Some(peer.value.(hs := Some(NewHandshake(0, 0))));
      if peer.value.role.Client? {
        err := SendHello(env, []);
        if err < 0 {
          return;
        }
        peer := Some(peer.value.(state := ClientHello));
      } else {
        err := SendMessage(env, HT_HELLO_REQUEST, [], false);
      }
    }

    /** dtls_close */
    method ClosePeer(env: Env) returns (err: int)
      modifies this
      ensures var r := Close(env, old(St())); St() == r.ctx && err == r.err
    {
      if peer.None? {
        return -1;
      }
      var res := SendRecord(env, Record.CT_ALERT, [LEVEL_FATAL, CLOSE_NOTIFY]);
      peer := Some(peer.value.(state := Closing));
      return 0;
    }

    /** dtls_write: connects where there is no peer, and sends nothing before the session is connected. */
    method WriteData(env: Env, data: bytes) returns (err: int)
      modifies this
      ensures var r := Write(env, old(St()), data); St() == r.ctx && err == r.err
    {
      hide Connect;
      if peer.None? {
        err := ConnectPeer(env);
        return if err >= 0 then 0 else err;
      }
      if !peer.value.state.Connected? {
        return 0;
      }
      err := SendRecord(env, Record.CT_APPLICATION_DATA, data);
    }
  }
}
