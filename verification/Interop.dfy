/**
 * Client and server against each other over a channel that loses and reorders
 * nothing: the whole PSK handshake, record by record.
 */
module Interop {
  import opened Bytes
  import opened HandshakeCodec
  import opened Engine
  import opened Session
  import opened Wire
  import opened HelloBytes
  import Prf
  import Record
  import Replay

  // ----- what the two sides agree on -----

  /** One PSK world: the key the client takes is the one the server finds for its identity. */
  datatype World = World(client: Env, server: Env, hint: bytes, id: bytes, psk: bytes)

  ghost predicate Agrees(w: World)
  {
    && w.client.hash == w.server.hash && w.client.aes == w.server.aes
    && w.server.hint == PskInfo(w.hint) && |w.hint| <= IDENTITY_MAX
    && w.client.identity(w.hint) == PskInfo(w.id) && |w.id| <= IDENTITY_MAX
    && w.client.key(w.id) == PskInfo(w.psk) && w.server.key(w.id) == PskInfo(w.psk) && |w.psk| <= PSK_KEY_MAX
    && (forall n :: w.client.sendResult(n) > 0) && (forall n :: w.server.sendResult(n) > 0)
  }

  /** There is such a pair for every hint, identity and key that fit, with any hash, block function and randoms. */
  lemma WorldExists(client: Env, server: Env, hint: bytes, id: bytes, psk: bytes)
    requires client.hash == server.hash && client.aes == server.aes
    requires |hint| <= IDENTITY_MAX && |id| <= IDENTITY_MAX && |psk| <= PSK_KEY_MAX
    ensures exists w :: Agrees(w) && w.hint == hint && w.id == id && w.psk == psk
                        && w.client.random == client.random && w.server.random == server.random
                        && w.client.hash == client.hash && w.client.aes == client.aes
  {
    var w := World(client.(identity := _ => PskInfo(id), key := _ => PskInfo(psk), sendResult := _ => 1),
                   server.(hint := PskInfo(hint), key := _ => PskInfo(psk), sendResult := _ => 1), hint, id, psk);
    assert Agrees(w);
  }

  // ----- the messages -----

  function Rc(w: World): Random { w.client.random(0) }
  function Rs(w: World): Random { w.server.random(0) }
  function Cookie(w: World): bytes { CookieFor(w.server, Rc(w)) }

  function FirstHello(w: World): bytes { HelloMessage(0, Rc(w), []) }
  function VerifyRequest(w: World): bytes { HandshakeCodec.Message(HT_HELLO_VERIFY_REQUEST, 0, HelloVerifyBody(Cookie(w))) }
  function SecondHello(w: World): bytes { HelloMessage(1, Rc(w), Cookie(w)) }
  function ServerHelloMsg(w: World): bytes
  {
    HandshakeCodec.Message(HT_SERVER_HELLO, 1, ServerHelloBody(Rs(w), PSK_WITH_AES_128_CCM_8))
  }
  function KeyExchangeMsg(w: World): bytes
  {
    HandshakeCodec.Message(HT_SERVER_KEY_EXCHANGE, 2, IdentityBody(w.hint))
  }
  /** How many messages the server's first flight has. */
  function Flight(w: World): nat { if w.hint == [] then 2 else 3 }
  function HelloDoneMsg(w: World): bytes { HandshakeCodec.Message(HT_SERVER_HELLO_DONE, Flight(w), []) }
  function ClientKeyMsg(w: World): bytes { HandshakeCodec.Message(HT_CLIENT_KEY_EXCHANGE, 2, IdentityBody(w.id)) }

  /** What both hash: from the second ClientHello on. */
  function HelloPart(w: World): bytes
  {
    var h := SecondHello(w) + ServerHelloMsg(w);
    (if w.hint == [] then h else h + KeyExchangeMsg(w)) + HelloDoneMsg(w)
  }
  function Hashed(w: World): bytes { HelloPart(w) + ClientKeyMsg(w) }

  function Master(w: World): bytes { Prf.MasterSecret(w.client.hash, w.psk, Rc(w), Rs(w)) }
  function Keys(w: World): Record.KeyBlock { Prf.KeyBlockOf(w.client.hash, w.psk, Rc(w), Rs(w)) }

  function ClientFinished(w: World): bytes
  {
    HandshakeCodec.Message(HT_FINISHED, 3, Prf.FinishedData(w.client.hash, Master(w), Record.Client, Hashed(w)))
  }
  function ServerFinished(w: World): bytes
  {
    HandshakeCodec.Message(HT_FINISHED, Flight(w) + 1,
                           Prf.FinishedData(w.client.hash, Master(w), Record.Server, Hashed(w) + ClientFinished(w)))
  }

  // ----- the records -----

  function InClear(ctype: byte, seqnum: nat, payload: bytes): Out
  {
    Out(false, ctype, 0, seqnum, Record.NullSuite, ZeroKeys, payload)
  }
  function Sealed(w: World, payload: bytes): Out
  {
    Out(false, Record.CT_HANDSHAKE, 1, 0, Record.PskCcm8, Keys(w), payload)
  }
  function Stateless(payload: bytes): Out
  {
    Out(true, Record.CT_HANDSHAKE, 0, 0, Record.NullSuite, ZeroKeys, payload)
  }
  function Ccs(seqnum: nat): Out { InClear(Record.CT_CHANGE_CIPHER_SPEC, seqnum, [1]) }

  function HelloFlight(w: World): seq<Out>
  {
    [InClear(Record.CT_HANDSHAKE, 1, ServerHelloMsg(w))]
    + (if w.hint == [] then [] else [InClear(Record.CT_HANDSHAKE, 2, KeyExchangeMsg(w))])
    + [InClear(Record.CT_HANDSHAKE, Flight(w), HelloDoneMsg(w))]
  }
  function ClientFlight(w: World): seq<Out>
  {
    [InClear(Record.CT_HANDSHAKE, 2, ClientKeyMsg(w)), Ccs(3), Sealed(w, ClientFinished(w))]
  }
  function ServerFlight(w: World): seq<Out> { [Ccs(Flight(w) + 1), Sealed(w, ServerFinished(w))] }

  // ----- the states in between -----

  function Null(rseq: nat, cseq: nat): Security
  {
    Security(0, rseq, Record.NullSuite, ZeroKeys, Replay.State(cseq, Replay.NoBits()))
  }
  function Keyed(w: World, rseq: nat): Security
  {
    Security(1, rseq, Record.PskCcm8, Keys(w), Replay.State(0, Replay.NoBits()))
  }

  /** The client's handshake parameters before the ServerHello. */
  function ClientHs(w: World, mseqS: nat, mseqR: nat, transcript: bytes): Handshake
  {
    NewHandshake(mseqS, mseqR).(transcript := transcript, clientRandom := Rc(w))
  }
  /** The handshake parameters either side has once randoms and cipher are chosen. */
  function ChosenHs(w: World, mseqS: nat, mseqR: nat, transcript: bytes, master: bytes, identity: bytes): Handshake
  {
    ClientHs(w, mseqS, mseqR, transcript).(serverRandom := Rs(w), cipher := PSK_WITH_AES_128_CCM_8, master := master,
                                           identity := identity)
  }

  /** The peer is this one, up to what Plainly leaves out. */
  ghost predicate Is(c: Ctx, role: Role, state: State, s0: Security, s1: Option<Security>, hs: Option<Handshake>)
  {
    c.peer.Some? && Plainly(P(c)) == Peer(role, state, Some(s0), s1, hs, [], [])
  }

  /** A record sent under the first slot. */
  function Sent(s0: Security, ctype: byte, payload: bytes): Out
  {
    Out(false, ctype, s0.epoch, s0.rseq, s0.suite, s0.keyBlock, payload)
  }

  function Next(s0: Security): Security { s0.(rseq := s0.rseq + 1) }

  lemma SendIs(env: Env, c: Ctx, role: Role, state: State, s0: Security, s1: Option<Security>, hs: Option<Handshake>,
               ctype: byte, payload: bytes)
    requires Is(c, role, state, s0, s1, hs) && forall n :: env.sendResult(n) > 0
    ensures var r := Send(env, c, ctype, payload);
            && r.err > 0 && Is(r.ctx, role, state, Next(s0), s1, hs)
            && r.ctx.out == c.out + [Sent(s0, ctype, payload)] && r.ctx.draws == c.draws
  {
  }

  function HsAfter(hs: Handshake, m: bytes, addHash: bool): Handshake
  {
    hs.(mseqS := (hs.mseqS + 1) % 0x1_0000, transcript := if addHash then hs.transcript + m else hs.transcript)
  }

  lemma SendHandshakeIs(env: Env, c: Ctx, role: Role, state: State, s0: Security, s1: Option<Security>, hs: Handshake,
                        htype: byte, body: bytes, addHash: bool)
    requires Is(c, role, state, s0, s1, Some(hs)) && forall n :: env.sendResult(n) > 0
    ensures var r, m := SendHandshake(env, c, htype, body, addHash), HandshakeCodec.Message(htype, hs.mseqS, body);
            && r.err > 0 && Is(r.ctx, role, state, Next(s0), s1, Some(HsAfter(hs, m, addHash)))
            && r.ctx.out == c.out + [Sent(s0, Record.CT_HANDSHAKE, m)] && r.ctx.draws == c.draws
  {
    hide Send, HandshakeCodec.Message;
    var m := HandshakeCodec.Message(htype, hs.mseqS, body);
    SendIs(env, SetHs(c, HsAfter(hs, m, addHash)), role, state, s0, s1, Some(HsAfter(hs, m, addHash)),
           Record.CT_HANDSHAKE, m);
  }

  /** dtls_connect */
  lemma Connects(w: World)
    requires Agrees(w)
    ensures var c := Connect(w.client, Empty()).ctx;
            && Is(c, Record.Client, ClientHello, Null(1, 0), None, Some(ClientHs(w, 1, 0, [])))
            && c.out == [InClear(Record.CT_HANDSHAKE, 0, FirstHello(w))] && c.draws == 1
  {
    hide ClientHelloBody, HandshakeCodec.Message, SendHandshake;
    var hs := NewHandshake(0, 0).(clientRandom := Rc(w));
    var c1 := SetHs(SetPeer(Empty(), NewPeer(Record.Client)), hs).(draws := 1);
    SendHandshakeIs(w.client, c1, Record.Client, Init, Null(0, 0), None, hs, HT_CLIENT_HELLO,
                    ClientHelloBody(Rc(w), []), false);
  }

  // ----- delivering a record -----

  /** A record under live parameters arrives: what it carries is dispatched. */
  ghost predicate Delivers(env: Env, c: Ctx, from: Role, form: HeaderForm, o: Out)
  {
    && c.peer.Some? && P(c).role == from.Other() && Sendable(o) && o.payload != []
    && (o.bare ==> form.Full?) && (Relabels(o) ==> o.suite.NullSuite?)
    && var s := SecurityOf(Plainly(P(c)), o.epoch);
       s.Some? && s.value.suite == o.suite && s.value.keyBlock == o.keyBlock && New(s.value.window, o.seqnum)
  }

  function AfterSeen(p: Peer, o: Out): Peer
  {
    Seen(if o.suite.PskCcm8? then FreeOther(p) else p, o.epoch, o.seqnum)
  }

  lemma Delivered(env: Env, c: Ctx, from: Role, form: HeaderForm, o: Out)
    requires Delivers(env, c, from, form, o)
    ensures var packet := Datagram(env.aes, from, form, o);
            && IsPacket(packet) && packet[0] == o.ctype && Record.ReadHeader(packet).epoch == o.epoch
            && var q := Receive(env, P(c), packet).0;
               && Plainly(q) == AfterSeen(Plainly(P(c)), o)
               && HandleDatagram(env, c, packet) == Dispatch(env, SetPeer(c, q), packet, q.role, q.state, o.payload)
  {
    hide Datagram, Record.ReadHeader, Record.Open, Receive, Dispatch, SecurityOf, Sendable, FreeOther, Engine.Frame;
    DatagramOpens(env.aes, from, form, o);
    var packet := Datagram(env.aes, from, form, o);
    SameLookup(P(c), o.epoch);
    ReceivesNew(env, P(c), packet, o.payload);
  }

  lemma SameLookup(p: Peer, epoch: nat)
    ensures var s, t := SecurityOf(p, epoch), SecurityOf(Plainly(p), epoch);
            && s.Some? == t.Some?
            && (s.Some? ==> s.value.suite == t.value.suite && s.value.keyBlock == t.value.keyBlock
                            && s.value.window.cseq == t.value.window.cseq)
  {
  }

  /** A handshake message under the right epoch and number goes straight to its handler. */
  lemma TakesMessage(env: Env, c: Ctx, from: Role, form: HeaderForm, o: Out) returns (c1: Ctx)
    requires Delivers(env, c, from, form, o) && o.ctype == Record.CT_HANDSHAKE
    requires HasHs(c) && Hs(c).queue == [] && |o.payload| >= HS_LENGTH && MsgSeq(o.payload) == Hs(c).mseqR
    requires ExpectedEpoch(Plainly(P(c)), P(c).role, P(c).state) == o.epoch
    ensures c1.peer.Some? && c1.out == c.out && c1.draws == c.draws && Plainly(P(c1)) == AfterSeen(Plainly(P(c)), o)
    ensures HasHs(c1) && Hs(c1) == Hs(c) && P(c1).role == P(c).role && P(c1).state == P(c).state
    ensures var r := HandleMessage(env, c1, P(c1).role, P(c1).state, o.payload);
            r.err >= 0 ==> HandleDatagram(env, c, Datagram(env.aes, from, form, o)).ctx == r.ctx
  {
    Delivered(env, c, from, form, o);
    var packet := Datagram(env.aes, from, form, o);
    var q := Receive(env, P(c), packet).0;
    c1 := SetPeer(c, q);
    SeenKeeps(P(c), q, o);
    NoDrain(env, c1, o.payload);
    hide Receive, Datagram, AfterSeen, HandleHandshake, HandleMessage, MsgSeq, Record.ReadHeader, Record.Open;
    assert DispatchHandshake(env, c1, packet, q.role, q.state, o.payload)
        == AlertIfFailed(env, HandleHandshake(env, c1, q.role, q.state, o.payload));
  }

  lemma SeenKeeps(p: Peer, q: Peer, o: Out)
    requires Plainly(q) == AfterSeen(Plainly(p), o)
    ensures q.role == p.role && q.state == p.state && q.hs == p.hs
    ensures ExpectedEpoch(q, p.role, p.state) == ExpectedEpoch(Plainly(p), p.role, p.state)
  {
  }

  lemma NoDrain(env: Env, c: Ctx, m: bytes)
    requires HasHs(c) && Hs(c).queue == [] && |m| >= HS_LENGTH && MsgSeq(m) == Hs(c).mseqR
    ensures var r := HandleMessage(env, c, P(c).role, P(c).state, m);
            HandleHandshake(env, c, P(c).role, P(c).state, m) == r
  {
    var r := HandleMessage(env, c, P(c).role, P(c).state, m);
    HandleMessageQueue(env, c, P(c).role, P(c).state, m);
    hide HandleMessage, MsgSeq, MsgType;
  }

  /** ChangeCipherSpec goes to its handler. */
  lemma TakesCcs(env: Env, c: Ctx, from: Role, form: HeaderForm, seqnum: nat) returns (c1: Ctx)
    requires Delivers(env, c, from, form, Ccs(seqnum))
    ensures c1.peer.Some? && c1.out == c.out && c1.draws == c.draws
    ensures Plainly(P(c1)) == AfterSeen(Plainly(P(c)), Ccs(seqnum))
    ensures var r := HandleCcs(env, c1, [1]);
            r.err >= 0 ==> HandleDatagram(env, c, Datagram(env.aes, from, form, Ccs(seqnum))).ctx == r.ctx
  {
    var o := Ccs(seqnum);
    Delivered(env, c, from, form, o);
    c1 := SetPeer(c, Receive(env, P(c), Datagram(env.aes, from, form, o)).0);
    hide Receive, Datagram, AfterSeen, HandleCcs, Record.ReadHeader, Record.Open;
  }

  // ----- the cookie exchange -----

  lemma WorldHello(w: World, cookie: bytes, mseq: nat)
    requires Agrees(w) && |cookie| < 256 && mseq < 0x1_0000
    ensures var m := HelloMessage(mseq, Rc(w), cookie);
            && |m| == HS_LENGTH + 42 + |cookie| && MsgType(m) == HT_CLIENT_HELLO && MsgSeq(m) == mseq
            && CreateCookie(w.server, m) == PskInfo(Cookie(w)) && GetCookie(m) == PskInfo(cookie)
  {
    ClientHelloReads(mseq, Rc(w), cookie);
    SameCookie(w.server, mseq, Rc(w), cookie);
  }

  /** A record for which the receiver has no peer. */
  lemma FromNobody(env: Env, c: Ctx, from: Role, form: HeaderForm, o: Out)
    requires c.peer.None? && Sendable(o) && o.suite.NullSuite? && !o.bare && o.ctype == Record.CT_HANDSHAKE
    requires |o.payload| >= HS_LENGTH && MsgType(o.payload) == HT_CLIENT_HELLO
    ensures var packet := Datagram(env.aes, from, form, o);
            IsPacket(packet) && HandleDatagram(env, c, packet)
                             == AlertIfFailed(env, HandleMessage(env, c, Record.Server, WaitClientHello, o.payload))
  {
    DatagramOpens(env.aes, from, form, o);
    hide Datagram, HandleMessage, MsgType, Record.ReadHeader, Record.Open;
  }

  /** Which function handles which message. */
  lemma Routed(env: Env, c: Ctx, role: Role, state: State, m: bytes)
    requires HasHs(c) && !state.Connected?
    ensures var r := HandleMessage(env, c, role, state, m);
            && (MsgType(m) == HT_HELLO_VERIFY_REQUEST ==> r == CountMessage(HandleHelloVerify(env, c, state, m)))
            && (MsgType(m) == HT_SERVER_HELLO ==> r == CountMessage(HandleServerHello(env, c, state, m)))
            && (MsgType(m) == HT_SERVER_KEY_EXCHANGE ==> r == CountMessage(HandleServerKeyExchange(env, c, state, m)))
            && (MsgType(m) == HT_SERVER_HELLO_DONE ==> r == CountMessage(HandleServerHelloDone(env, c, state, m)))
            && (MsgType(m) == HT_CLIENT_KEY_EXCHANGE ==> r == CountMessage(HandleClientKeyExchange(env, c, state, m)))
            && (MsgType(m) == HT_FINISHED ==> r == HandleFinished(env, c, role, state, m))
            && (MsgType(m) == HT_HELLO_REQUEST ==> r == R(c, 0))
  {
    hide HandleHelloVerify, HandleServerHello, HandleServerKeyExchange, HandleServerHelloDone, HandleClientKeyExchange,
         HandleFinished, CountMessage, MsgType;
  }

  lemma RoutedHello(env: Env, c: Ctx, m: bytes)
    requires c.peer.None? && MsgType(m) == HT_CLIENT_HELLO
    ensures HandleMessage(env, c, Record.Server, WaitClientHello, m)
         == CountMessage(HandleClientHello(env, c, WaitClientHello, m))
  {
    hide HandleClientHello, CountMessage, MsgType;
  }

  lemma VerifyRefuses(w: World, c: Ctx)
    requires Agrees(w) && c.peer.None?
    ensures var r := VerifyPeer(w.server, c, WaitClientHello, FirstHello(w));
            r.err > 0 && r.ctx == c.(out := c.out + [Stateless(VerifyRequest(w))])
  {
    WorldHello(w, [], 0);
    hide HelloMessage, CreateCookie, GetCookie, MsgType, HandshakeCodec.Message;
  }

  /** The server answers a ClientHello without cookie with a HelloVerifyRequest and forgets about it. */
  lemma ServerVerifies(w: World, c: Ctx, form: HeaderForm)
    requires Agrees(w) && c.peer.None?
    ensures var packet := Datagram(w.server.aes, Record.Client, form, InClear(Record.CT_HANDSHAKE, 0, FirstHello(w)));
            IsPacket(packet) && HandleDatagram(w.server, c, packet).ctx
                             == c.(out := c.out + [Stateless(VerifyRequest(w))])
  {
    var m := FirstHello(w);
    WorldHello(w, [], 0);
    FromNobody(w.server, c, Record.Client, form, InClear(Record.CT_HANDSHAKE, 0, m));
    RoutedHello(w.server, c, m);
    VerifyRefuses(w, c);
    hide FirstHello, VerifyPeer, MsgType, Datagram, HandleMessage, HandleDatagram, AnswerClientHello, VerifyRequest;
  }

  lemma VerifyRequestTaken(w: World, c: Ctx, s0: Security, hs: Handshake)
    requires Agrees(w) && Is(c, Record.Client, ClientHello, s0, None, Some(hs)) && hs.mseqR == 0 && hs.mseqS == 1
    requires hs.clientRandom == Rc(w)
    ensures var r := HandleMessage(w.client, c, Record.Client, ClientHello, VerifyRequest(w));
            && r.err >= 0
            && Is(r.ctx, Record.Client, ClientHello, Next(s0), None,
                  Some(hs.(mseqS := 2, mseqR := 1, transcript := SecondHello(w))))
            && r.ctx.out == c.out + [Sent(s0, Record.CT_HANDSHAKE, SecondHello(w))] && r.ctx.draws == c.draws
  {
    Routed(w.client, c, Record.Client, ClientHello, VerifyRequest(w));
    HelloVerifyReads(0, Cookie(w));
    VerifyRequestHandled(w, c, s0, hs);
    hide MsgType, VerifyRequest, SecondHello, HandleHelloVerify, HandleMessage;
  }

  lemma VerifyRequestHandled(w: World, c: Ctx, s0: Security, hs: Handshake)
    requires Agrees(w) && Is(c, Record.Client, ClientHello, s0, None, Some(hs)) && hs.mseqS == 1
    requires hs.clientRandom == Rc(w)
    ensures var r := HandleHelloVerify(w.client, c, ClientHello, VerifyRequest(w));
            && r.err >= 0
            && Is(r.ctx, Record.Client, ClientHello, Next(s0), None, Some(hs.(mseqS := 2, transcript := SecondHello(w))))
            && r.ctx.out == c.out + [Sent(s0, Record.CT_HANDSHAKE, SecondHello(w))] && r.ctx.draws == c.draws
  {
    HelloVerifyReads(0, Cookie(w));
    hide MsgType, HandshakeCodec.Message, HelloVerifyBody, ClientHelloBody, Sub, HandshakeCodec.At, SendHandshake;
    var c1 := SetHs(c, Hs(c).(transcript := []));
    SendHandshakeIs(w.client, c1, Record.Client, ClientHello, s0, None, hs.(transcript := []), HT_CLIENT_HELLO,
                    ClientHelloBody(Rc(w), Cookie(w)), true);
    assert [] + SecondHello(w) == SecondHello(w);
  }

  /** The client sends its ClientHello again, with the cookie, and starts hashing with it. */
  lemma ClientSendsCookie(w: World, c: Ctx)
    requires Agrees(w)
    requires Is(c, Record.Client, ClientHello, Null(1, 0), None, Some(ClientHs(w, 1, 0, [])))
    ensures var c' := HandleDatagram(w.client, c, Datagram(w.client.aes, Record.Server, Full, Stateless(VerifyRequest(w)))).ctx;
            && Is(c', Record.Client, ClientHello, Null(2, 0), None, Some(ClientHs(w, 2, 1, SecondHello(w))))
            && c'.out == c.out + [InClear(Record.CT_HANDSHAKE, 1, SecondHello(w))] && c'.draws == c.draws
  {
    HelloVerifyReads(0, Cookie(w));
    var o := Stateless(VerifyRequest(w));
    ClientMessage(w, c, Full, o);
    hide MsgType, MsgSeq, Datagram, VerifyRequest, SecondHello, HandleDatagram, HandleMessage;
    var c1 := TakesMessage(w.client, c, Record.Server, Full, o);
    VerifyRequestTaken(w, c1, Null(1, 0), ClientHs(w, 1, 0, []));
  }

  /** A record that the server sends in the clear can be delivered to a client in its first epoch. */
  lemma ClientMessage(w: World, c: Ctx, form: HeaderForm, o: Out)
    requires c.peer.Some? && P(c).role.Client? && Plainly(P(c)).slot0.Some?
    requires var s := Plainly(P(c)).slot0.value;
             s.epoch == 0 && s.suite.NullSuite? && s.keyBlock == ZeroKeys && New(s.window, o.seqnum)
    requires Sendable(o) && o.payload != [] && o.epoch == 0 && o.suite.NullSuite? && o.keyBlock == ZeroKeys
    requires o.bare ==> form.Full?
    ensures Delivers(w.client, c, Record.Server, form, o)
  {
  }

  // ----- the server's first flight -----

  function ServerHs0(w: World, transcript: bytes): Handshake
  {
    NewHandshake(1, 1).(clientRandom := Rc(w), cipher := PSK_WITH_AES_128_CCM_8, transcript := transcript)
  }

  lemma FlightHs(w: World)
    ensures var hs := ServerHs0(w, SecondHello(w)).(serverRandom := Rs(w));
            var hs1 := HsAfter(hs, ServerHelloMsg(w), true);
            var hs2 := if w.hint == [] then hs1 else HsAfter(hs1, KeyExchangeMsg(w), true);
            HsAfter(hs2, HelloDoneMsg(w), true) == ChosenHs(w, 1 + Flight(w), 1, HelloPart(w), [], [])
  {
    hide HandshakeCodec.Message, HelloMessage, ServerHelloBody, IdentityBody;
  }

  lemma FlightOut(w: World, out: seq<Out>)
    ensures var o1 := out + [Sent(Null(1, 0), Record.CT_HANDSHAKE, ServerHelloMsg(w))];
            var o2 := if w.hint == [] then o1 else o1 + [Sent(Null(2, 0), Record.CT_HANDSHAKE, KeyExchangeMsg(w))];
            o2 + [Sent(Null(Flight(w), 0), Record.CT_HANDSHAKE, HelloDoneMsg(w))] == out + HelloFlight(w)
  {
    hide HandshakeCodec.Message, HelloMessage, ServerHelloBody, IdentityBody;
  }

  lemma FlightSent(w: World, c: Ctx)
    requires Agrees(w) && c.draws == 0
    requires Is(c, Record.Server, Init, Null(1, 0), None, Some(ServerHs0(w, SecondHello(w))))
    ensures var r := SendServerHelloMsgs(w.server, c);
            && r.err >= 0 && r.ctx.out == c.out + HelloFlight(w) && r.ctx.draws == 1
            && Is(r.ctx, Record.Server, Init, Null(1 + Flight(w), 0), None,
                  Some(ChosenHs(w, 1 + Flight(w), 1, HelloPart(w), [], [])))
  {
    FlightHs(w);
    FlightOut(w, c.out);
    hide SendHandshake, HelloMessage, ServerHelloBody, IdentityBody, ChosenHs, HelloPart, HelloFlight, SecondHello, Sent;
    var hs := ServerHs0(w, SecondHello(w)).(serverRandom := Rs(w));
    var c1 := SetHs(c, Hs(c).(serverRandom := Rs(w))).(draws := 1);
    var body := ServerHelloBody(Rs(w), PSK_WITH_AES_128_CCM_8);
    assert Is(c1, Record.Server, Init, Null(1, 0), None, Some(hs));
    hide Is, ServerHs0, HandshakeCodec.Message, SetHs, HsAfter;
    SendHandshakeIs(w.server, c1, Record.Server, Init, Null(1, 0), None, hs, HT_SERVER_HELLO, body, true);
    var r1 := SendHandshake(w.server, c1, HT_SERVER_HELLO, body, true);
    AfterServerHello(w, r1.ctx, HsAfter(hs, ServerHelloMsg(w), true));
  }

  /** The hint, if there is one, and ServerHelloDone. */
  lemma AfterServerHello(w: World, c: Ctx, hs: Handshake)
    requires Agrees(w) && Is(c, Record.Server, Init, Null(2, 0), None, Some(hs)) && hs.mseqS == 2
    ensures var r1 := if w.hint == [] then R(c, 1) else SendHandshake(w.server, c, HT_SERVER_KEY_EXCHANGE, IdentityBody(w.hint), true);
            var hs1 := if w.hint == [] then hs else HsAfter(hs, KeyExchangeMsg(w), true);
            var r2 := SendHandshake(w.server, r1.ctx, HT_SERVER_HELLO_DONE, [], true);
            var o1 := if w.hint == [] then c.out else c.out + [Sent(Null(2, 0), Record.CT_HANDSHAKE, KeyExchangeMsg(w))];
            && r1.err > 0 && HasHs(r1.ctx) && r2.err > 0 && r2.ctx.draws == c.draws
            && r2.ctx.out == o1 + [Sent(Null(Flight(w), 0), Record.CT_HANDSHAKE, HelloDoneMsg(w))]
            && Is(r2.ctx, Record.Server, Init, Null(1 + Flight(w), 0), None, Some(HsAfter(hs1, HelloDoneMsg(w), true)))
  {
    hide SendHandshake, HandshakeCodec.Message, IdentityBody, Sent;
    if w.hint == [] {
      SendHandshakeIs(w.server, c, Record.Server, Init, Null(2, 0), None, hs, HT_SERVER_HELLO_DONE, [], true);
    } else {
      SendHandshakeIs(w.server, c, Record.Server, Init, Null(2, 0), None, hs, HT_SERVER_KEY_EXCHANGE,
                      IdentityBody(w.hint), true);
      var r1 := SendHandshake(w.server, c, HT_SERVER_KEY_EXCHANGE, IdentityBody(w.hint), true);
      SendHandshakeIs(w.server, r1.ctx, Record.Server, Init, Null(3, 0), None, HsAfter(hs, KeyExchangeMsg(w), true),
                      HT_SERVER_HELLO_DONE, [], true);
    }
  }

  lemma CookieAccepted(w: World, c: Ctx)
    requires Agrees(w) && c.peer.None?
    ensures VerifyPeer(w.server, c, WaitClientHello, SecondHello(w)) == R(c, 0)
  {
    WorldHello(w, Cookie(w), 1);
    hide HelloMessage, MsgType, MsgSeq, CreateCookie, GetCookie;
  }

  lemma NewServerPeer(w: World, c: Ctx)
    requires c.peer.None? && MsgSeq(SecondHello(w)) == 1
    ensures var c1 := PeerForHello(c, WaitClientHello, SecondHello(w));
            && Is(c1, Record.Server, Init, Null(1, 0), None, Some(NewHandshake(1, 1)))
            && c1.out == c.out && c1.draws == c.draws
  {
    hide HelloMessage, MsgSeq;
  }

  lemma SecondHelloFacts(w: World)
    requires Agrees(w)
    ensures var m := SecondHello(w);
            && |m| >= HS_LENGTH && MsgType(m) == HT_CLIENT_HELLO && MsgSeq(m) == 1
            && Sendable(InClear(Record.CT_HANDSHAKE, 1, m))
  {
    WorldHello(w, Cookie(w), 1);
    hide HelloMessage, MsgType, MsgSeq;
  }

  lemma FlightAnswered(w: World, c: Ctx)
    requires Agrees(w) && c.draws == 0 && Is(c, Record.Server, Init, Null(1, 0), None, Some(NewHandshake(1, 1)))
    ensures var r := AnswerClientHello(w.server, c, SecondHello(w));
            && r.err >= 0 && r.ctx.out == c.out + HelloFlight(w) && r.ctx.draws == 1
            && Is(r.ctx, Record.Server, WaitClientKeyExchange, Null(1 + Flight(w), 0), None,
                  Some(ChosenHs(w, 1 + Flight(w), 1, HelloPart(w), [], [])))
  {
    var m := SecondHello(w);
    HelloAccepted(w.server, c, 1, Rc(w), Cookie(w));
    hide HelloMessage, SendServerHelloMsgs, UpdateParameters, HelloPart, HelloFlight, ChosenHs;
    var c2 := FeedHs(SetHs(c, Hs(c).(clientRandom := Rc(w), cipher := PSK_WITH_AES_128_CCM_8)), m);
    assert [] + m == m;
    assert Is(c2, Record.Server, Init, Null(1, 0), None, Some(ServerHs0(w, m)));
    FlightSent(w, c2);
  }

  lemma SecondHelloAnswered(w: World, c: Ctx)
    requires Agrees(w) && c.peer.None? && c.draws == 0
    ensures var r := HandleClientHello(w.server, c, WaitClientHello, SecondHello(w));
            && r.err >= 0 && r.ctx.out == c.out + HelloFlight(w) && r.ctx.draws == 1
            && Is(r.ctx, Record.Server, WaitClientKeyExchange, Null(1 + Flight(w), 0), None,
                  Some(ChosenHs(w, 1 + Flight(w), 1, HelloPart(w), [], [])))
  {
    hide AnswerClientHello, MsgSeq, HelloPart, HelloFlight, VerifyPeer, ChosenHs, PeerForHello, SecondHello, Is;
    SecondHelloFacts(w);
    CookieAccepted(w, c);
    NewServerPeer(w, c);
    FlightAnswered(w, PeerForHello(c, WaitClientHello, SecondHello(w)));
  }

  lemma CountIs(r: R, role: Role, state: State, s0: Security, s1: Option<Security>, hs: Handshake)
    requires Is(r.ctx, role, state, s0, s1, Some(hs)) && r.err >= 0
    ensures var r' := CountMessage(r);
            && r'.err == r.err && r'.ctx.out == r.ctx.out && r'.ctx.draws == r.ctx.draws
            && Is(r'.ctx, role, state, s0, s1, Some(hs.(mseqR := (hs.mseqR + 1) % 0x1_0000)))
  {
  }

  /** The server accepts the cookie, makes a peer and sends its flight. */
  lemma ServerAnswers(w: World, c: Ctx, form: HeaderForm)
    requires Agrees(w) && c.peer.None? && c.draws == 0
    ensures var o := InClear(Record.CT_HANDSHAKE, 1, SecondHello(w));
            var c' := HandleDatagram(w.server, c, Datagram(w.server.aes, Record.Client, form, o)).ctx;
            && c'.out == c.out + HelloFlight(w) && c'.draws == 1
            && Is(c', Record.Server, WaitClientKeyExchange, Null(1 + Flight(w), 0), None,
                  Some(ChosenHs(w, 1 + Flight(w), 2, HelloPart(w), [], [])))
  {
    hide SecondHello, HelloFlight, HelloPart, HandleClientHello, MsgType, MsgSeq, Datagram, HandleMessage, HandleDatagram, Is,
         CountMessage, Sendable;
    var m := SecondHello(w);
    SecondHelloFacts(w);
    FromNobody(w.server, c, Record.Client, form, InClear(Record.CT_HANDSHAKE, 1, m));
    RoutedHello(w.server, c, m);
    SecondHelloAnswered(w, c);
    var r := HandleClientHello(w.server, c, WaitClientHello, m);
    CountIs(r, Record.Server, WaitClientKeyExchange, Null(1 + Flight(w), 0), None,
            ChosenHs(w, 1 + Flight(w), 1, HelloPart(w), [], []));
  }

  // ----- the client takes the server's flight -----

  lemma ServerHelloTaken(w: World, c: Ctx)
    requires Agrees(w)
    requires Is(c, Record.Client, ClientHello, Null(2, 1), None, Some(ClientHs(w, 2, 1, SecondHello(w))))
    ensures var r := HandleMessage(w.client, c, Record.Client, ClientHello, ServerHelloMsg(w));
            && r.err >= 0 && r.ctx.out == c.out && r.ctx.draws == c.draws
            && Is(r.ctx, Record.Client, WaitServerHelloDone, Null(2, 1), None,
                  Some(ChosenHs(w, 2, 2, SecondHello(w) + ServerHelloMsg(w), [], [])))
  {
    ServerHelloReads(1, Rs(w), PSK_WITH_AES_128_CCM_8);
    Routed(w.client, c, Record.Client, ClientHello, ServerHelloMsg(w));
    ServerHelloAccepted(w.client, c, 1, Rs(w));
    hide HandleMessage, CheckServerHello, MsgType, HandshakeCodec.Message, SecondHello, ServerHelloBody;
  }

  lemma ClientTakesServerHello(w: World, c: Ctx, form: HeaderForm)
    requires Agrees(w)
    requires Is(c, Record.Client, ClientHello, Null(2, 0), None, Some(ClientHs(w, 2, 1, SecondHello(w))))
    ensures var o := InClear(Record.CT_HANDSHAKE, 1, ServerHelloMsg(w));
            var c' := HandleDatagram(w.client, c, Datagram(w.client.aes, Record.Server, form, o)).ctx;
            && c'.out == c.out && c'.draws == c.draws
            && Is(c', Record.Client, WaitServerHelloDone, Null(2, 1), None,
                  Some(ChosenHs(w, 2, 2, SecondHello(w) + ServerHelloMsg(w), [], [])))
  {
    ServerHelloReads(1, Rs(w), PSK_WITH_AES_128_CCM_8);
    var o := InClear(Record.CT_HANDSHAKE, 1, ServerHelloMsg(w));
    ClientMessage(w, c, form, o);
    hide MsgType, MsgSeq, Datagram, ServerHelloMsg, SecondHello, HandleDatagram, HandleMessage;
    var c1 := TakesMessage(w.client, c, Record.Server, form, o);
    ServerHelloTaken(w, c1);
  }

  lemma KeyExchangeTaken(w: World, c: Ctx, transcript: bytes)
    requires Agrees(w)
    requires Is(c, Record.Client, WaitServerHelloDone, Null(2, 2), None, Some(ChosenHs(w, 2, 2, transcript, [], [])))
    ensures var r := HandleMessage(w.client, c, Record.Client, WaitServerHelloDone, KeyExchangeMsg(w));
            && r.err >= 0 && r.ctx.out == c.out && r.ctx.draws == c.draws
            && Is(r.ctx, Record.Client, WaitServerHelloDone, Null(2, 2), None,
                  Some(ChosenHs(w, 2, 3, transcript + KeyExchangeMsg(w), [], w.hint)))
  {
    IdentityReads(HT_SERVER_KEY_EXCHANGE, 2, w.hint);
    Routed(w.client, c, Record.Client, WaitServerHelloDone, KeyExchangeMsg(w));
    hide HandleMessage, MsgType, HandshakeCodec.Message, IdentityBody, Sub, U16;
  }

  lemma ClientTakesKeyExchange(w: World, c: Ctx, form: HeaderForm, transcript: bytes)
    requires Agrees(w)
    requires Is(c, Record.Client, WaitServerHelloDone, Null(2, 1), None, Some(ChosenHs(w, 2, 2, transcript, [], [])))
    ensures var o := InClear(Record.CT_HANDSHAKE, 2, KeyExchangeMsg(w));
            var c' := HandleDatagram(w.client, c, Datagram(w.client.aes, Record.Server, form, o)).ctx;
            && c'.out == c.out && c'.draws == c.draws
            && Is(c', Record.Client, WaitServerHelloDone, Null(2, 2), None,
                  Some(ChosenHs(w, 2, 3, transcript + KeyExchangeMsg(w), [], w.hint)))
  {
    IdentityReads(HT_SERVER_KEY_EXCHANGE, 2, w.hint);
    var o := InClear(Record.CT_HANDSHAKE, 2, KeyExchangeMsg(w));
    ClientMessage(w, c, form, o);
    hide MsgType, MsgSeq, Datagram, KeyExchangeMsg, HandleDatagram, HandleMessage;
    var c1 := TakesMessage(w.client, c, Record.Server, form, o);
    KeyExchangeTaken(w, c1, transcript);
  }

  // ----- the client's last flight -----

  lemma HelloDoneReads(w: World)
    ensures var m := HelloDoneMsg(w); |m| == HS_LENGTH && MsgType(m) == HT_SERVER_HELLO_DONE && MsgSeq(m) == Flight(w)
  {
    MessageReads(HT_SERVER_HELLO_DONE, Flight(w), []);
    hide MsgType, MsgSeq, HandshakeCodec.Message;
  }

  /** The client's keys, once the identity is sent. */
  lemma KeysIs(w: World, env: Env, c: Ctx, role: Role, state: State, s0: Security, s1: Option<Security>, hs: Handshake)
    requires Agrees(w) && (env == w.client || env == w.server)
    requires Is(c, role, state, s0, s1, Some(hs)) && s0.epoch == 0 && hs.identity == w.id
    requires hs.clientRandom == Rc(w) && hs.serverRandom == Rs(w) && hs.cipher == PSK_WITH_AES_128_CCM_8
    ensures var r := CalculateKeyBlock(env, c);
            && r.err >= 0 && r.ctx.out == c.out && r.ctx.draws == c.draws
            && Is(r.ctx, role, state, s0, Some(Keyed(w, 0)), Some(hs.(master := Master(w))))
  {
    hide Prf.MasterSecret, Prf.KeyBlockOf;
  }

  lemma SwitchIs(c: Ctx, role: Role, state: State, s0: Security, s1: Security, hs: Handshake)
    requires Is(c, role, state, s0, Some(s1), Some(hs))
    ensures Is(SetPeer(c, SwitchParams(P(c))), role, state, s1, Some(s0), Some(hs))
  {
  }

  lemma FinishedIs(env: Env, c: Ctx, role: Role, state: State, s0: Security, s1: Option<Security>, hs: Handshake,
                   side: Role)
    requires Is(c, role, state, s0, s1, Some(hs)) && forall n :: env.sendResult(n) > 0
    ensures var r := SendFinished(env, c, side);
            var m := HandshakeCodec.Message(HT_FINISHED, hs.mseqS,
                                            Prf.FinishedData(env.hash, hs.master, side, hs.transcript));
            && r.err > 0 && Is(r.ctx, role, state, Next(s0), s1, Some(HsAfter(hs, m, true)))
            && r.ctx.out == c.out + [Sent(s0, Record.CT_HANDSHAKE, m)] && r.ctx.draws == c.draws
  {
    hide SendHandshake, Prf.FinishedData, HandshakeCodec.Message;
    SendHandshakeIs(env, c, role, state, s0, s1, hs, HT_FINISHED,
                    Prf.FinishedData(env.hash, hs.master, side, hs.transcript), true);
  }

  lemma CcsSent(env: Env, c: Ctx, role: Role, state: State, s0: Security, s1: Option<Security>, hs: Option<Handshake>)
    requires Is(c, role, state, s0, s1, hs) && forall n :: env.sendResult(n) > 0
    ensures var r := SendCcs(env, c);
            && r.err > 0 && Is(r.ctx, role, state, Next(s0), s1, hs)
            && r.ctx.out == c.out + [Sent(s0, Record.CT_CHANGE_CIPHER_SPEC, [1])] && r.ctx.draws == c.draws
  {
    SendIs(env, c, role, state, s0, s1, hs, Record.CT_CHANGE_CIPHER_SPEC, [1]);
    hide Send;
  }

  lemma ClientKeySent(w: World, c: Ctx, cseq: nat, identity: bytes)
    requires Agrees(w) && (identity == w.hint || (w.hint == [] && identity == []))
    requires Is(c, Record.Client, WaitServerHelloDone, Null(2, cseq), None,
                Some(ChosenHs(w, 2, Flight(w), HelloPart(w), [], identity)))
    ensures var r := SendClientKeyExchange(w.client, c);
            && r.err >= 0 && r.ctx.draws == c.draws
            && Is(r.ctx, Record.Client, WaitServerHelloDone, Null(3, cseq), None,
                  Some(ChosenHs(w, 3, Flight(w), Hashed(w), [], w.id)))
            && r.ctx.out == c.out + [InClear(Record.CT_HANDSHAKE, 2, ClientKeyMsg(w))]
  {
    hide SendHandshake, HandshakeCodec.Message, HelloPart, IdentityBody;
    var hs := ChosenHs(w, 2, Flight(w), HelloPart(w), [], w.id);
    SendHandshakeIs(w.client, SetHs(c, Hs(c).(identity := w.id)), Record.Client, WaitServerHelloDone, Null(2, cseq), None,
                    hs, HT_CLIENT_KEY_EXCHANGE, IdentityBody(w.id), true);
  }

  /** Key exchange, keys, ChangeCipherSpec, the switch and Finished. */
  lemma LastFlightSent(w: World, c: Ctx, cseq: nat, identity: bytes, transcript: bytes)
    requires Agrees(w) && identity == w.hint && transcript + HelloDoneMsg(w) == HelloPart(w)
    requires Is(c, Record.Client, WaitServerHelloDone, Null(2, cseq), None,
                Some(ChosenHs(w, 2, Flight(w), transcript, [], identity)))
    ensures var r := CheckHelloDone(w.client, c, HelloDoneMsg(w));
            && r.err >= 0 && r.ctx.out == c.out + ClientFlight(w) && r.ctx.draws == c.draws
            && Is(r.ctx, Record.Client, WaitServerHelloDone, Keyed(w, 1), Some(Null(4, cseq)),
                  Some(ChosenHs(w, 4, Flight(w), Hashed(w) + ClientFinished(w), Master(w), w.id)))
  {
    hide SendClientKeyExchange, CalculateKeyBlock, SendCcs, SendFinished, HelloDoneMsg, HelloPart, Hashed, ClientKeyMsg,
         Prf.FinishedData, Master, Keys;
    var state := WaitServerHelloDone;
    var c1 := FeedHs(c, HelloDoneMsg(w));
    assert Is(c1, Record.Client, state, Null(2, cseq), None, Some(ChosenHs(w, 2, Flight(w), HelloPart(w), [], identity)));
    assert !Hs(c1).clientAuth;
    hide Is, SwitchParams;
    ClientKeySent(w, c1, cseq, identity);
    var r2 := SendClientKeyExchange(w.client, c1);
    KeysIs(w, w.client, r2.ctx, Record.Client, state, Null(3, cseq), None, ChosenHs(w, 3, Flight(w), Hashed(w), [], w.id));
    LastTwoSent(w, CalculateKeyBlock(w.client, r2.ctx).ctx, cseq);
  }

  lemma LastTwoSent(w: World, c: Ctx, cseq: nat)
    requires Agrees(w)
    requires Is(c, Record.Client, WaitServerHelloDone, Null(3, cseq), Some(Keyed(w, 0)),
                Some(ChosenHs(w, 3, Flight(w), Hashed(w), Master(w), w.id)))
    ensures var r4 := SendCcs(w.client, c);
            && r4.err > 0 && r4.ctx.peer.Some?
            && var r := SendFinished(w.client, SetPeer(r4.ctx, SwitchParams(P(r4.ctx))), Record.Client);
               && r.err > 0 && r.ctx.out == c.out + [Ccs(3), Sealed(w, ClientFinished(w))] && r.ctx.draws == c.draws
               && Is(r.ctx, Record.Client, WaitServerHelloDone, Keyed(w, 1), Some(Null(4, cseq)),
                     Some(ChosenHs(w, 4, Flight(w), Hashed(w) + ClientFinished(w), Master(w), w.id)))
  {
    hide SendCcs, SendFinished, Hashed, Prf.FinishedData, Master, Keys, SwitchParams, Plainly;
    var state, hs := WaitServerHelloDone, ChosenHs(w, 3, Flight(w), Hashed(w), Master(w), w.id);
    CcsSent(w.client, c, Record.Client, state, Null(3, cseq), Some(Keyed(w, 0)), Some(hs));
    var r4 := SendCcs(w.client, c);
    SwitchIs(r4.ctx, Record.Client, state, Null(4, cseq), Keyed(w, 0), hs);
    var c5 := SetPeer(r4.ctx, SwitchParams(P(r4.ctx)));
    FinishedIs(w.client, c5, Record.Client, state, Keyed(w, 0), Some(Null(4, cseq)), hs, Record.Client);
  }

  lemma LogStateIs(c: Ctx, role: Role, state: State, state': State, s0: Security, s1: Option<Security>,
                   hs: Option<Handshake>, m: Milestone)
    requires Is(c, role, state, s0, s1, hs)
    ensures var c' := Log(SetState(c, state'), m);
            Is(c', role, state', s0, s1, hs) && c'.out == c.out && c'.draws == c.draws
  {
  }

  lemma HelloDoneTaken(w: World, c: Ctx, cseq: nat, transcript: bytes)
    requires Agrees(w) && transcript + HelloDoneMsg(w) == HelloPart(w)
    requires Is(c, Record.Client, WaitServerHelloDone, Null(2, cseq), None,
                Some(ChosenHs(w, 2, Flight(w), transcript, [], w.hint)))
    ensures var r := HandleMessage(w.client, c, Record.Client, WaitServerHelloDone, HelloDoneMsg(w));
            && r.err >= 0 && r.ctx.out == c.out + ClientFlight(w) && r.ctx.draws == c.draws
            && Is(r.ctx, Record.Client, WaitChangeCipherSpec, Keyed(w, 1), Some(Null(4, cseq)),
                  Some(ChosenHs(w, 4, Flight(w) + 1, Hashed(w) + ClientFinished(w), Master(w), w.id)))
  {
    hide MsgType, MsgSeq, HelloDoneMsg, HandleMessage, CheckHelloDone, HelloPart, Hashed, ClientFinished, ClientFlight,
         Master, CountMessage, Keyed, Agrees;
    var state := WaitServerHelloDone;
    HelloDoneReads(w);
    HasHandshake(c, Record.Client, state, Null(2, cseq), None, ChosenHs(w, 2, Flight(w), transcript, [], w.hint));
    Routed(w.client, c, Record.Client, state, HelloDoneMsg(w));
    LastFlightSent(w, c, cseq, w.hint, transcript);
    var r := CheckHelloDone(w.client, c, HelloDoneMsg(w));
    var hs := ChosenHs(w, 4, Flight(w), Hashed(w) + ClientFinished(w), Master(w), w.id);
    LogStateIs(r.ctx, Record.Client, state, WaitChangeCipherSpec, Keyed(w, 1), Some(Null(4, cseq)), Some(hs), GotHelloDone);
    var r1 := HandleServerHelloDone(w.client, c, state, HelloDoneMsg(w));
    hide Is;
    CountIs(r1, Record.Client, WaitChangeCipherSpec, Keyed(w, 1), Some(Null(4, cseq)), hs);
  }

  lemma HasHandshake(c: Ctx, role: Role, state: State, s0: Security, s1: Option<Security>, hs: Handshake)
    requires Is(c, role, state, s0, s1, Some(hs))
    ensures HasHs(c) && Hs(c) == hs && P(c).role == role && P(c).state == state
  {
  }

  lemma ClientTakesHelloDone(w: World, c: Ctx, form: HeaderForm, transcript: bytes)
    requires Agrees(w) && transcript + HelloDoneMsg(w) == HelloPart(w)
    requires Is(c, Record.Client, WaitServerHelloDone, Null(2, Flight(w) - 1), None,
                Some(ChosenHs(w, 2, Flight(w), transcript, [], w.hint)))
    ensures var o := InClear(Record.CT_HANDSHAKE, Flight(w), HelloDoneMsg(w));
            var c' := HandleDatagram(w.client, c, Datagram(w.client.aes, Record.Server, form, o)).ctx;
            && c'.out == c.out + ClientFlight(w) && c'.draws == c.draws
            && Is(c', Record.Client, WaitChangeCipherSpec, Keyed(w, 1), Some(Null(4, Flight(w))),
                  Some(ChosenHs(w, 4, Flight(w) + 1, Hashed(w) + ClientFinished(w), Master(w), w.id)))
  {
    hide MsgType, MsgSeq, Datagram, HelloDoneMsg, HandleDatagram, HandleMessage, HelloPart, Hashed, ClientFinished,
         ClientFlight, Master, Keyed;
    HelloDoneReads(w);
    var o := InClear(Record.CT_HANDSHAKE, Flight(w), HelloDoneMsg(w));
    ClientMessage(w, c, form, o);
    var c1 := TakesMessage(w.client, c, Record.Server, form, o);
    HelloDoneTaken(w, c1, Flight(w), transcript);
  }

  // ----- the server takes the client's flight -----

  lemma ServerMessage(w: World, c: Ctx, form: HeaderForm, o: Out)
    requires c.peer.Some? && P(c).role.Server? && Plainly(P(c)).slot0.Some?
    requires var s := Plainly(P(c)).slot0.value;
             s.epoch == 0 && s.suite.NullSuite? && s.keyBlock == ZeroKeys && New(s.window, o.seqnum)
    requires Sendable(o) && o.payload != [] && o.epoch == 0 && o.suite.NullSuite? && o.keyBlock == ZeroKeys
    requires o.bare ==> form.Full?
    ensures Delivers(w.server, c, Record.Client, form, o)
  {
  }

  lemma ClientKeyTaken(w: World, c: Ctx)
    requires Agrees(w)
    requires Is(c, Record.Server, WaitClientKeyExchange, Null(1 + Flight(w), 2), None,
                Some(ChosenHs(w, 1 + Flight(w), 2, HelloPart(w), [], [])))
    ensures var r := HandleMessage(w.server, c, Record.Server, WaitClientKeyExchange, ClientKeyMsg(w));
            && r.err >= 0 && r.ctx.out == c.out && r.ctx.draws == c.draws
            && Is(r.ctx, Record.Server, WaitChangeCipherSpec, Null(1 + Flight(w), 2), None,
                  Some(ChosenHs(w, 1 + Flight(w), 3, Hashed(w), [], w.id)))
  {
    IdentityReads(HT_CLIENT_KEY_EXCHANGE, 2, w.id);
    Routed(w.server, c, Record.Server, WaitClientKeyExchange, ClientKeyMsg(w));
    hide HandleMessage, MsgType, HandshakeCodec.Message, IdentityBody, Sub, U16, HelloPart;
  }

  lemma ServerTakesClientKey(w: World, c: Ctx, form: HeaderForm)
    requires Agrees(w)
    requires Is(c, Record.Server, WaitClientKeyExchange, Null(1 + Flight(w), 0), None,
                Some(ChosenHs(w, 1 + Flight(w), 2, HelloPart(w), [], [])))
    ensures var o := InClear(Record.CT_HANDSHAKE, 2, ClientKeyMsg(w));
            var c' := HandleDatagram(w.server, c, Datagram(w.server.aes, Record.Client, form, o)).ctx;
            && c'.out == c.out && c'.draws == c.draws
            && Is(c', Record.Server, WaitChangeCipherSpec, Null(1 + Flight(w), 2), None,
                  Some(ChosenHs(w, 1 + Flight(w), 3, Hashed(w), [], w.id)))
  {
    IdentityReads(HT_CLIENT_KEY_EXCHANGE, 2, w.id);
    var o := InClear(Record.CT_HANDSHAKE, 2, ClientKeyMsg(w));
    ServerMessage(w, c, form, o);
    hide MsgType, MsgSeq, Datagram, ClientKeyMsg, HandleDatagram, HandleMessage, HelloPart, Hashed;
    var c1 := TakesMessage(w.server, c, Record.Client, form, o);
    ClientKeyTaken(w, c1);
  }

  /** The server makes the same keys when ChangeCipherSpec comes. */
  lemma ServerTakesCcs(w: World, c: Ctx, form: HeaderForm)
    requires Agrees(w)
    requires Is(c, Record.Server, WaitChangeCipherSpec, Null(1 + Flight(w), 2), None,
                Some(ChosenHs(w, 1 + Flight(w), 3, Hashed(w), [], w.id)))
    ensures var c' := HandleDatagram(w.server, c, Datagram(w.server.aes, Record.Client, form, Ccs(3))).ctx;
            && c'.out == c.out && c'.draws == c.draws
            && Is(c', Record.Server, WaitFinished, Null(1 + Flight(w), 3), Some(Keyed(w, 0)),
                  Some(ChosenHs(w, 1 + Flight(w), 3, Hashed(w), Master(w), w.id)))
  {
    hide Datagram, HandleDatagram, Hashed, Master, CalculateKeyBlock, Keyed;
    ServerMessage(w, c, form, Ccs(3));
    var c1 := TakesCcs(w.server, c, Record.Client, form, 3);
    KeysIs(w, w.server, c1, Record.Server, WaitChangeCipherSpec, Null(1 + Flight(w), 3), None,
           ChosenHs(w, 1 + Flight(w), 3, Hashed(w), [], w.id));
    var r := CalculateKeyBlock(w.server, c1);
    LogStateIs(r.ctx, Record.Server, WaitChangeCipherSpec, WaitFinished, Null(1 + Flight(w), 3), Some(Keyed(w, 0)),
               Some(ChosenHs(w, 1 + Flight(w), 3, Hashed(w), Master(w), w.id)), GotCcs);
  }

  lemma FinishedFacts(w: World)
    ensures var m, n := ClientFinished(w), ServerFinished(w);
            && |m| == HS_LENGTH + FIN_LENGTH && MsgType(m) == HT_FINISHED && MsgSeq(m) == 3
            && Sub(m, HS_LENGTH, FIN_LENGTH) == Prf.FinishedData(w.client.hash, Master(w), Record.Client, Hashed(w))
            && |n| == HS_LENGTH + FIN_LENGTH && MsgType(n) == HT_FINISHED && MsgSeq(n) == Flight(w) + 1
            && Sub(n, HS_LENGTH, FIN_LENGTH)
            == Prf.FinishedData(w.client.hash, Master(w), Record.Server, Hashed(w) + ClientFinished(w))
  {
    FinishedReads(3, Prf.FinishedData(w.client.hash, Master(w), Record.Client, Hashed(w)));
    FinishedReads(Flight(w) + 1,
                  Prf.FinishedData(w.client.hash, Master(w), Record.Server, Hashed(w) + ClientFinished(w)));
    hide MsgType, MsgSeq, HandshakeCodec.Message, Prf.FinishedData, Hashed, Master;
  }

  /** A peer once the handshake is over. */
  lemma ConnectedIs(c: Ctx, role: Role, state: State, s0: Security, s1: Option<Security>, hs: Option<Handshake>)
    requires Is(c, role, state, s0, s1, hs)
    ensures var c' := Log(SetPeer(c, P(c).(hs := None, state := Connected)), GotFinished);
            Is(c', role, Connected, s0, s1, None) && c'.out == c.out && c'.draws == c.draws
  {
  }

  lemma ServerFinishes(w: World, c: Ctx)
    requires Agrees(w)
    requires Is(c, Record.Server, WaitFinished, Null(1 + Flight(w), 3), Some(Keyed(w, 0)),
                Some(ChosenHs(w, 1 + Flight(w), 3, Hashed(w), Master(w), w.id)))
    ensures var r := ServerFinish(w.server, c, ClientFinished(w));
            && r.err >= 0 && r.ctx.out == c.out + ServerFlight(w) && r.ctx.draws == c.draws
            && Is(r.ctx, Record.Server, WaitFinished, Keyed(w, 1), Some(Null(2 + Flight(w), 3)),
                  Some(ChosenHs(w, 2 + Flight(w), 3, Hashed(w) + ClientFinished(w) + ServerFinished(w), Master(w), w.id)))
  {
    hide SendCcs, SendFinished, Hashed, ClientFinished, Prf.FinishedData, Master, Keys;
    var n, state := Flight(w), WaitFinished;
    var c1 := FeedHs(c, ClientFinished(w));
    var hs := ChosenHs(w, 1 + n, 3, Hashed(w) + ClientFinished(w), Master(w), w.id);
    assert Is(c1, Record.Server, state, Null(1 + n, 3), Some(Keyed(w, 0)), Some(hs));
    hide Is, SwitchParams;
    CcsSent(w.server, c1, Record.Server, state, Null(1 + n, 3), Some(Keyed(w, 0)), Some(hs));
    var r1 := SendCcs(w.server, c1);
    SwitchIs(r1.ctx, Record.Server, state, Null(2 + n, 3), Keyed(w, 0), hs);
    var c2 := SetPeer(r1.ctx, SwitchParams(P(r1.ctx)));
    FinishedIs(w.server, c2, Record.Server, state, Keyed(w, 0), Some(Null(2 + n, 3)), hs, Record.Server);
  }

  lemma SealedDelivers(w: World, env: Env, c: Ctx, from: Role, form: HeaderForm, m: bytes)
    requires c.peer.Some? && P(c).role == from.Other() && m != [] && |m| < 0x1000
    requires m[0] != HT_CLIENT_HELLO && m[0] != HT_HELLO_VERIFY_REQUEST
    requires SecurityOf(Plainly(P(c)), 1).Some? && SecurityOf(Plainly(P(c)), 1).value.suite.PskCcm8?
    requires SecurityOf(Plainly(P(c)), 1).value.keyBlock == Keys(w)
    requires SecurityOf(Plainly(P(c)), 1).value.window.cseq == 0
    ensures Delivers(env, c, from, form, Sealed(w, m))
  {
    hide SecurityOf, Keys;
  }

  /** The server checks the client's Finished over the same messages, answers, and is connected. */
  lemma ServerTakesFinished(w: World, c: Ctx, form: HeaderForm)
    requires Agrees(w)
    requires Is(c, Record.Server, WaitFinished, Null(1 + Flight(w), 3), Some(Keyed(w, 0)),
                Some(ChosenHs(w, 1 + Flight(w), 3, Hashed(w), Master(w), w.id)))
    ensures var c' := HandleDatagram(w.server, c, Datagram(w.server.aes, Record.Client, form, Sealed(w, ClientFinished(w)))).ctx;
            && c'.out == c.out + ServerFlight(w) && c'.draws == c.draws
            && Is(c', Record.Server, Connected, Keyed(w, 1), Some(Null(2 + Flight(w), 3)), None)
  {
    hide MsgType, MsgSeq, Datagram, ClientFinished, ServerFinished, HandleDatagram, HandleMessage, Hashed, Master, Keys,
         Prf.FinishedData, ServerFlight, ServerFinish;
    var n, m := Flight(w), ClientFinished(w);
    FinishedFacts(w);
    FirstByte(m);
    SealedDelivers(w, w.server, c, Record.Client, form, m);
    var c1 := TakesMessage(w.server, c, Record.Client, form, Sealed(w, m));
    Routed(w.server, c1, Record.Server, WaitFinished, m);
    ServerFinishes(w, c1);
    var r := ServerFinish(w.server, c1, m);
    ConnectedIs(r.ctx, Record.Server, WaitFinished, Keyed(w, 1), Some(Null(2 + n, 3)),
                Some(ChosenHs(w, 2 + n, 3, Hashed(w) + m + ServerFinished(w), Master(w), w.id)));
  }

  lemma FirstByte(m: bytes)
    requires |m| >= HS_LENGTH && MsgType(m) == HT_FINISHED
    ensures m[0] == HT_FINISHED
  {
  }

  // ----- the client takes the server's last flight -----

  lemma ClientTakesCcs(w: World, c: Ctx, form: HeaderForm, hs: Handshake)
    requires Is(c, Record.Client, WaitChangeCipherSpec, Keyed(w, 1), Some(Null(4, Flight(w))), Some(hs))
    ensures var c' := HandleDatagram(w.client, c, Datagram(w.client.aes, Record.Server, form, Ccs(Flight(w) + 1))).ctx;
            && c'.out == c.out && c'.draws == c.draws
            && Is(c', Record.Client, WaitFinished, Keyed(w, 1), Some(Null(4, Flight(w) + 1)), Some(hs))
  {
    hide Datagram, HandleDatagram, Keys;
    assert Delivers(w.client, c, Record.Server, form, Ccs(Flight(w) + 1));
    var c1 := TakesCcs(w.client, c, Record.Server, form, Flight(w) + 1);
    LogStateIs(c1, Record.Client, WaitChangeCipherSpec, WaitFinished, Keyed(w, 1), Some(Null(4, Flight(w) + 1)), Some(hs),
               GotCcs);
  }

  /** The client checks the server's Finished over the same messages, and is connected. */
  lemma ClientTakesFinished(w: World, c: Ctx, form: HeaderForm)
    requires Agrees(w)
    requires Is(c, Record.Client, WaitFinished, Keyed(w, 1), Some(Null(4, Flight(w) + 1)),
                Some(ChosenHs(w, 4, Flight(w) + 1, Hashed(w) + ClientFinished(w), Master(w), w.id)))
    ensures var c' := HandleDatagram(w.client, c, Datagram(w.client.aes, Record.Server, form, Sealed(w, ServerFinished(w)))).ctx;
            && c'.out == c.out && c'.draws == c.draws
            && Is(c', Record.Client, Connected, Keyed(w, 1), None, None)
  {
    hide MsgType, MsgSeq, Datagram, ClientFinished, ServerFinished, HandleDatagram, HandleMessage, Hashed, Master, Keys,
         Prf.FinishedData;
    var m := ServerFinished(w);
    FinishedFacts(w);
    FirstByte(m);
    SealedDelivers(w, w.client, c, Record.Server, form, m);
    var c1 := TakesMessage(w.client, c, Record.Server, form, Sealed(w, m));
    Routed(w.client, c1, Record.Client, WaitFinished, m);
    ConnectedIs(c1, Record.Client, WaitFinished, Keyed(w, 1), None,
                Some(ChosenHs(w, 4, Flight(w) + 1, Hashed(w) + ClientFinished(w), Master(w), w.id)));
  }
}
