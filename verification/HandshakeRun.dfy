/**
 * The handshake between this client and this server as a whole, and the header
 * form on which it depends.
 */
module HandshakeRun {
  import opened Bytes
  import opened HandshakeCodec
  import opened Engine
  import opened Session
  import opened Wire
  import opened Interop
  import Prf
  import Record
  import Replay

  // ----- a channel that loses and reorders nothing -----

  /** The two sessions and how many of each one's records have arrived. */
  datatype Pair = Pair(client: Ctx, server: Ctx, toServer: nat, toClient: nat)

  function Start(w: World): Pair { Pair(Connect(w.client, Empty()).ctx, Empty(), 0, 0) }

  /** What arrives at env in state c when the other side, in the given role, has sent o. */
  function Arrival(env: Env, c: Ctx, from: Role, form: HeaderForm, o: Out): Ctx
  {
    if Sendable(o) then HandleDatagram(env, c, Datagram(env.aes, from, form, o)).ctx else c
  }

  /** The next record arrives, if there is one on the way. */
  function Deliver(w: World, form: HeaderForm, p: Pair): Pair
  {
    if p.toServer < |p.client.out| then
      p.(server := Arrival(w.server, p.server, Record.Client, form, p.client.out[p.toServer]), toServer := p.toServer + 1)
    else if p.toClient < |p.server.out| then
      p.(client := Arrival(w.client, p.client, Record.Server, form, p.server.out[p.toClient]), toClient := p.toClient + 1)
    else p
  }

  ghost function Steps(w: World, form: HeaderForm, p: Pair, n: nat): Pair
  {
    if n == 0 then p else Deliver(w, form, Steps(w, form, p, n - 1))
  }

  lemma OneStep(w: World, form: HeaderForm, p: Pair, n: nat)
    ensures Steps(w, form, p, n + 1) == Deliver(w, form, Steps(w, form, p, n))
  {
    hide Deliver;
  }

  lemma FewSteps(w: World, form: HeaderForm, p: Pair)
    ensures Steps(w, form, p, 0) == p && Steps(w, form, p, 1) == Deliver(w, form, p)
    ensures Steps(w, form, p, 2) == Deliver(w, form, Deliver(w, form, p))
    ensures Steps(w, form, p, 3) == Deliver(w, form, Deliver(w, form, Deliver(w, form, p)))
  {
    hide Deliver;
    OneStep(w, form, p, 0); OneStep(w, form, p, 1); OneStep(w, form, p, 2);
  }

  ghost function After(w: World, form: HeaderForm, n: nat): Pair { Steps(w, form, Start(w), n) }

  /** Records are on the way in one direction only, so there is nothing to choose. */
  predicate OneWay(p: Pair)
  {
    p.toServer >= |p.client.out| || p.toClient >= |p.server.out|
  }

  predicate Idle(p: Pair) { p.toServer == |p.client.out| && p.toClient == |p.server.out| }

  // ----- with whole headers -----

  function Hellos(w: World): seq<Out>
  {
    [InClear(Record.CT_HANDSHAKE, 0, FirstHello(w)), InClear(Record.CT_HANDSHAKE, 1, SecondHello(w))]
  }

  function Verify(w: World): seq<Out> { [Stateless(VerifyRequest(w))] }

  lemma ToServer(w: World, form: HeaderForm, p: Pair, o: Out)
    requires p.toServer < |p.client.out| && p.client.out[p.toServer] == o && Sendable(o)
    ensures Deliver(w, form, p)
         == p.(server := HandleDatagram(w.server, p.server, Datagram(w.server.aes, Record.Client, form, o)).ctx,
               toServer := p.toServer + 1)
  {
    hide HandleDatagram, Datagram;
  }

  lemma ToClient(w: World, form: HeaderForm, p: Pair, o: Out)
    requires p.toServer >= |p.client.out| && p.toClient < |p.server.out| && p.server.out[p.toClient] == o && Sendable(o)
    ensures Deliver(w, form, p)
         == p.(client := HandleDatagram(w.client, p.client, Datagram(w.client.aes, Record.Server, form, o)).ctx,
               toClient := p.toClient + 1)
  {
    hide HandleDatagram, Datagram;
  }

  lemma Fits(w: World)
    requires Agrees(w)
    ensures Sendable(InClear(Record.CT_HANDSHAKE, 0, FirstHello(w))) && Sendable(Stateless(VerifyRequest(w)))
    ensures Sendable(InClear(Record.CT_HANDSHAKE, 1, SecondHello(w)))
    ensures Sendable(InClear(Record.CT_HANDSHAKE, 1, ServerHelloMsg(w)))
    ensures Sendable(InClear(Record.CT_HANDSHAKE, 2, KeyExchangeMsg(w)))
    ensures Sendable(InClear(Record.CT_HANDSHAKE, Flight(w), HelloDoneMsg(w)))
    ensures Sendable(InClear(Record.CT_HANDSHAKE, 2, ClientKeyMsg(w))) && Sendable(Ccs(3)) && Sendable(Ccs(Flight(w) + 1))
    ensures Sendable(Sealed(w, ClientFinished(w))) && Sendable(Sealed(w, ServerFinished(w)))
  {
    hide Prf.FinishedData, Master, Keys, Hashed;
  }

  // ----- the stages -----

  ghost predicate ClientGreets(w: World, c: Ctx)
  {
    && Is(c, Record.Client, ClientHello, Null(1, 0), None, Some(ClientHs(w, 1, 0, [])))
    && c.out == [InClear(Record.CT_HANDSHAKE, 0, FirstHello(w))]
  }

  ghost predicate ClientGreetsAgain(w: World, c: Ctx)
  {
    && Is(c, Record.Client, ClientHello, Null(2, 0), None, Some(ClientHs(w, 2, 1, SecondHello(w))))
    && c.out == Hellos(w)
  }

  ghost predicate ServerGreets(w: World, c: Ctx)
  {
    && Is(c, Record.Server, WaitClientKeyExchange, Null(1 + Flight(w), 0), None,
          Some(ChosenHs(w, 1 + Flight(w), 2, HelloPart(w), [], [])))
    && c.out == Verify(w) + HelloFlight(w)
  }

  ghost predicate ClientWaits(w: World, c: Ctx)
  {
    && Is(c, Record.Client, WaitChangeCipherSpec, Keyed(w, 1), Some(Null(4, Flight(w))),
          Some(ChosenHs(w, 4, Flight(w) + 1, Hashed(w) + ClientFinished(w), Master(w), w.id)))
    && c.out == Hellos(w) + ClientFlight(w)
  }

  ghost predicate ServerConnected(w: World, c: Ctx)
  {
    && Is(c, Record.Server, Connected, Keyed(w, 1), Some(Null(2 + Flight(w), 3)), None)
    && c.out == Verify(w) + HelloFlight(w) + ServerFlight(w)
  }

  ghost predicate ClientConnected(w: World, c: Ctx)
  {
    Is(c, Record.Client, Connected, Keyed(w, 1), None, None) && c.out == Hellos(w) + ClientFlight(w)
  }

  function Verified(w: World): Ctx { Ctx(None, 0, Verify(w)) }

  /** The first ClientHello and the HelloVerifyRequest, whatever header that has. */
  lemma FirstSteps(w: World, form: HeaderForm)
    requires Agrees(w)
    ensures ClientGreets(w, Start(w).client) && OneWay(Start(w))
    ensures Deliver(w, form, Start(w)) == Pair(Start(w).client, Verified(w), 1, 0)
  {
    hide HandleDatagram, Datagram, FirstHello, Is, Sendable;
    Interop.Connects(w);
    Fits(w);
    ToServer(w, form, Start(w), InClear(Record.CT_HANDSHAKE, 0, FirstHello(w)));
    ServerVerifies(w, Empty(), form);
  }

  lemma CookieSteps(w: World, c: Ctx)
    requires Agrees(w) && ClientGreets(w, c)
    ensures var p1 := Deliver(w, Full, Pair(c, Verified(w), 1, 0));
            var p2 := Deliver(w, Full, p1);
            && p1.toServer == 1 && p1.toClient == 1 && p1.server == Verified(w) && ClientGreetsAgain(w, p1.client)
            && p2.client == p1.client && p2.toServer == 2 && p2.toClient == 1 && ServerGreets(w, p2.server)
  {
    hide HandleDatagram, Datagram, FirstHello, SecondHello, VerifyRequest, Is, Sendable, Deliver, HelloPart, HelloFlight;
    var p := Pair(c, Verified(w), 1, 0);
    Fits(w);
    ToClient(w, Full, p, Stateless(VerifyRequest(w)));
    ClientSendsCookie(w, c);
    var p1 := Deliver(w, Full, p);
    ToServer(w, Full, p1, InClear(Record.CT_HANDSHAKE, 1, SecondHello(w)));
    ServerAnswers(w, p1.server, Full);
  }

  /** The server's flight arrives: ServerHello, the hint if there is one, ServerHelloDone. */
  lemma FlightSteps(w: World, p: Pair)
    requires Agrees(w) && ClientGreetsAgain(w, p.client) && ServerGreets(w, p.server) && p.toServer == 2 && p.toClient == 1
    ensures var q := Steps(w, Full, p, Flight(w));
            && q.server == p.server && ClientWaits(w, q.client) && q.toServer == 2 && q.toClient == 1 + Flight(w)
    ensures forall k :: 0 <= k <= Flight(w) ==> OneWay(Steps(w, Full, p, k))
  {
    hide HandleDatagram, Datagram, SecondHello, ServerHelloMsg, KeyExchangeMsg, HelloDoneMsg, Is, Sendable, Deliver, Hashed,
         HelloPart, ClientFinished, ClientFlight, Hellos;
    Fits(w);
    HellosSent(w);
    var h := SecondHello(w) + ServerHelloMsg(w);
    HelloParts(w);
    var o1, od := InClear(Record.CT_HANDSHAKE, 1, ServerHelloMsg(w)), InClear(Record.CT_HANDSHAKE, Flight(w), HelloDoneMsg(w));
    ToClient(w, Full, p, o1);
    ClientTakesServerHello(w, p.client, Full);
    var p1 := Deliver(w, Full, p);
    FewSteps(w, Full, p);
    if w.hint == [] {
      ToClient(w, Full, p1, od);
      ClientTakesHelloDone(w, p1.client, Full, h);
    } else {
      var o2 := InClear(Record.CT_HANDSHAKE, 2, KeyExchangeMsg(w));
      ToClient(w, Full, p1, o2);
      ClientTakesKeyExchange(w, p1.client, Full, h);
      var p2 := Deliver(w, Full, p1);
      ToClient(w, Full, p2, od);
      ClientTakesHelloDone(w, p2.client, Full, h + KeyExchangeMsg(w));
    }
  }

  lemma HellosSent(w: World)
    ensures |Hellos(w)| == 2
  {
  }

  lemma HelloParts(w: World)
    ensures var h := SecondHello(w) + ServerHelloMsg(w);
            HelloPart(w) == (if w.hint == [] then h else h + KeyExchangeMsg(w)) + HelloDoneMsg(w)
  {
    hide SecondHello, ServerHelloMsg, KeyExchangeMsg, HelloDoneMsg;
  }

  /** The client's last flight arrives: ClientKeyExchange, ChangeCipherSpec, Finished. */
  lemma ClientFlightSteps(w: World, p: Pair)
    requires Agrees(w) && ClientWaits(w, p.client) && ServerGreets(w, p.server)
    requires p.toServer == 2 && p.toClient == 1 + Flight(w)
    ensures var q := Steps(w, Full, p, 3);
            && q.client == p.client && ServerConnected(w, q.server) && q.toServer == 5 && q.toClient == 1 + Flight(w)
    ensures forall k :: 0 <= k <= 3 ==> OneWay(Steps(w, Full, p, k))
  {
    hide HandleDatagram, Datagram, ClientKeyMsg, ClientFinished, Is, Sendable, Deliver, Hashed, HelloPart, ServerFlight,
         Hellos, HelloFlight, Verify;
    Fits(w);
    Lengths(w);
    ToServer(w, Full, p, InClear(Record.CT_HANDSHAKE, 2, ClientKeyMsg(w)));
    ServerTakesClientKey(w, p.server, Full);
    var p1 := Deliver(w, Full, p);
    ToServer(w, Full, p1, Ccs(3));
    ServerTakesCcs(w, p1.server, Full);
    var p2 := Deliver(w, Full, p1);
    ToServer(w, Full, p2, Sealed(w, ClientFinished(w)));
    ServerTakesFinished(w, p2.server, Full);
    FewSteps(w, Full, p);
  }

  lemma Lengths(w: World)
    ensures |Hellos(w)| == 2 && |ClientFlight(w)| == 3 && |Verify(w)| == 1 && |HelloFlight(w)| == Flight(w)
    ensures |ServerFlight(w)| == 2
  {
  }

  /** The server's last flight arrives: ChangeCipherSpec and Finished. */
  lemma ServerFlightSteps(w: World, p: Pair)
    requires Agrees(w) && ClientWaits(w, p.client) && ServerConnected(w, p.server)
    requires p.toServer == 5 && p.toClient == 1 + Flight(w)
    ensures var q := Steps(w, Full, p, 2);
            && q.server == p.server && ClientConnected(w, q.client) && q.toServer == 5 && q.toClient == 3 + Flight(w)
    ensures forall k :: 0 <= k <= 2 ==> OneWay(Steps(w, Full, p, k))
  {
    hide HandleDatagram, Datagram, ServerFinished, Is, Sendable, Deliver, Hashed, Hellos, HelloFlight, Verify, ClientFlight,
         ClientFinished;
    Fits(w);
    Lengths(w);
    ToClient(w, Full, p, Ccs(Flight(w) + 1));
    ClientTakesCcs(w, p.client, Full,
                   ChosenHs(w, 4, Flight(w) + 1, Hashed(w) + ClientFinished(w), Master(w), w.id));
    var p1 := Deliver(w, Full, p);
    ToClient(w, Full, p1, Sealed(w, ServerFinished(w)));
    ClientTakesFinished(w, p1.client, Full);
    FewSteps(w, Full, p);
  }

  lemma {:induction false} StepsJoin(w: World, form: HeaderForm, p: Pair, m: nat, n: nat)
    ensures Steps(w, form, Steps(w, form, p, m), n) == Steps(w, form, p, m + n)
    decreases n
  {
    hide Deliver;
    if n > 0 {
      StepsJoin(w, form, p, m, n - 1);
    }
  }

  /** After this many records the handshake is over. */
  function Total(w: World): nat { 8 + Flight(w) }

  /** The outcome: connected on both sides with the same keys, and nothing on the way. */
  ghost predicate Done(w: World, p: Pair)
  {
    && ClientConnected(w, p.client) && ServerConnected(w, p.server)
    && P(p.client).slot0.value.keyBlock == P(p.server).slot0.value.keyBlock == Keys(w)
    && P(p.client).slot0.value.epoch == P(p.server).slot0.value.epoch == 1
    && Idle(p)
  }

  /** After so many records the server is connected and the client waits for its last flight. */
  lemma ServerFirst(w: World)
    requires Agrees(w)
    ensures var p := After(w, Full, 6 + Flight(w));
            ClientWaits(w, p.client) && ServerConnected(w, p.server) && p.toServer == 5 && p.toClient == 1 + Flight(w)
    ensures forall k :: 0 <= k <= 6 + Flight(w) ==> OneWay(After(w, Full, k))
  {
    hide Deliver, ClientGreets, ClientGreetsAgain, ServerGreets, ClientWaits, ServerConnected, Start;
    var f, p0 := Flight(w), Start(w);
    FirstSteps(w, Full);
    CookieSteps(w, p0.client);
    var p1 := Deliver(w, Full, p0);
    var p2 := Deliver(w, Full, p1);
    var p3 := Deliver(w, Full, p2);
    FewSteps(w, Full, p0);
    FlightSteps(w, p3);
    var p4 := Steps(w, Full, p3, f);
    ClientFlightSteps(w, p4);
    StepsJoin(w, Full, p0, 3, f); StepsJoin(w, Full, p0, 3 + f, 3);
    EarlyOneWay(w, p0, p1, p2);
    forall k | 0 <= k <= 6 + f ensures OneWay(After(w, Full, k)) {
      hide OneWay;
      if k > 3 + f {
        StepsJoin(w, Full, p0, 3 + f, k - (3 + f));
      } else if k >= 3 {
        StepsJoin(w, Full, p0, 3, k - 3);
      }
    }
  }

  lemma AllSteps(w: World)
    requires Agrees(w)
    ensures Done(w, After(w, Full, Total(w)))
    ensures forall k :: 0 <= k <= Total(w) ==> OneWay(After(w, Full, k))
  {
    hide Deliver, ClientWaits, Start, OneWay, Done;
    var n := 6 + Flight(w);
    ServerFirst(w);
    var p := After(w, Full, n);
    ServerFlightSteps(w, p);
    StepsJoin(w, Full, Start(w), n, 2);
    forall k | n < k <= Total(w) ensures OneWay(After(w, Full, k)) {
      StepsJoin(w, Full, Start(w), n, k - n);
    }
    DoneAtLast(w, Steps(w, Full, p, 2));
  }

  lemma EarlyOneWay(w: World, p0: Pair, p1: Pair, p2: Pair)
    requires ClientGreets(w, p0.client) && p1.client == p0.client && p1.toServer == 1
    requires p2.server == Verified(w) && p2.toClient == 1
    ensures OneWay(p1) && OneWay(p2)
  {
  }

  lemma DoneAtLast(w: World, p: Pair)
    requires ServerConnected(w, p.server) && ClientConnected(w, p.client) && p.toServer == 5 && p.toClient == 3 + Flight(w)
    ensures Done(w, p)
  {
    Lengths(w);
    hide Hellos, HelloFlight, Verify, ClientFlight, ServerFlight, Keys;
  }

  // ----- with the header the code writes -----

  /** What a receiver reads in the HelloVerifyRequest: everything two bytes too early. */
  function Shifted(w: World, form: HeaderForm): bytes
    requires form.Short?
  {
    (VerifyRequest(w) + [form.behind0, form.behind1])[2..]
  }

  lemma BareParts(m: bytes, behind: bytes)
    requires |behind| == 2 && |m| < 0x1000
    ensures var r := Record.Relabelled(Record.BareRecord(Record.CT_HANDSHAKE, m, behind));
            && |r| == Record.RH_LENGTH + |m| && r[0] == Record.CT_HANDSHAKE
            && r[3..11] == Zeros(8) && r[Record.RH_LENGTH..] == (m + behind)[2..]
  {
    hide PutBE;
    var r := Record.BareRecord(Record.CT_HANDSHAKE, m, behind);
    assert r[3..11] == Zeros(8) && r[Record.RH_LENGTH..] == (m + behind)[2..];
  }

  lemma ZeroNumber(packet: bytes)
    requires |packet| >= Record.RH_LENGTH && packet[3..11] == Zeros(8)
    ensures Record.ReadHeader(packet).epoch == 0 && Record.ReadHeader(packet).seqnum == 0
  {
    assert packet[3..5] == packet[3..11][..2] == Zeros(2);
    assert packet[5..11] == packet[3..11][2..] == Zeros(6);
    ZeroBE(2);
    ZeroBE(6);
  }

  lemma {:induction false} ZeroBE(n: nat)
    ensures GetBE(Zeros(n)) == 0
  {
    if n > 0 {
      assert Zeros(n)[..n - 1] == Zeros(n - 1);
      ZeroBE(n - 1);
    }
  }

  /** It looks like a HelloRequest with message number 0. */
  lemma ShiftedReads(w: World, form: HeaderForm)
    requires form.Short?
    ensures var m := Shifted(w, form);
            |m| == HS_LENGTH + HV_LENGTH + COOKIE_LENGTH && MsgType(m) == HT_HELLO_REQUEST && MsgSeq(m) == 0
  {
    var v, body := VerifyRequest(w), HelloVerifyBody(Cookie(w));
    assert v == HsHeader(HT_HELLO_VERIFY_REQUEST, |body|, 0) + body;
    assert |body| == 19;
    assert v[2] == 0 && v[6] == 0 && v[7] == 0;
    assert Shifted(w, form)[0] == v[2] && Shifted(w, form)[4] == v[6] && Shifted(w, form)[5] == v[7];
  }

  /** The client drops it and goes on waiting. */
  lemma ClientDrops(w: World, form: HeaderForm, c: Ctx)
    requires Agrees(w) && form.Short? && ClientGreets(w, c)
    ensures ClientGreets(w, Arrival(w.client, c, Record.Server, form, Stateless(VerifyRequest(w))))
  {
    hide Is, FirstHello;
    var o, m := Stateless(VerifyRequest(w)), Shifted(w, form);
    Fits(w);
    ShiftedReads(w, form);
    var packet := Datagram(w.client.aes, Record.Server, form, o);
    ShortDatagram(w, form);
    ClientIgnores(w, c, packet, m);
  }

  lemma ShortDatagram(w: World, form: HeaderForm)
    requires Agrees(w) && form.Short?
    ensures var o := Stateless(VerifyRequest(w));
            && Sendable(o)
            && var packet := Datagram(w.client.aes, Record.Server, form, o);
               && IsPacket(packet) && packet[0] == Record.CT_HANDSHAKE
               && Record.ReadHeader(packet).epoch == 0 && Record.ReadHeader(packet).seqnum == 0
               && packet[Record.RH_LENGTH..] == Shifted(w, form)
  {
    var o := Stateless(VerifyRequest(w));
    Fits(w);
    BareParts(VerifyRequest(w), [form.behind0, form.behind1]);
    hide Record.BareRecord, Record.ReadHeader, Record.Relabelled, HelloVerifyBody;
    var packet := Datagram(w.client.aes, Record.Server, form, o);
    assert Relabels(o);
    DatagramIsRecord(w.client.aes, Record.Server, form, o);
    ZeroNumber(packet);
  }

  lemma ClientIgnores(w: World, c: Ctx, packet: bytes, m: bytes)
    requires Agrees(w) && IsPacket(packet) && packet[0] == Record.CT_HANDSHAKE && packet[Record.RH_LENGTH..] == m
    requires Record.ReadHeader(packet).epoch == 0 && Record.ReadHeader(packet).seqnum == 0
    requires |m| >= HS_LENGTH && MsgType(m) == HT_HELLO_REQUEST && MsgSeq(m) == 0
    requires ClientGreets(w, c)
    ensures ClientGreets(w, HandleDatagram(w.client, c, packet).ctx)
  {
    hide MsgType, MsgSeq, Record.ReadHeader, Receive, FirstHello, HandleMessage;
    SameLookup(P(c), 0);
    ReceivesNew(w.client, P(c), packet, m);
    var q := Receive(w.client, P(c), packet).0;
    var c1 := SetPeer(c, q);
    assert ClientGreets(w, c1);
    Routed(w.client, c1, Record.Client, ClientHello, m);
    NoDrain(w.client, c1, m);
    hide HandleHandshake;
    assert DispatchHandshake(w.client, c1, packet, q.role, q.state, m) == R(c1, 0);
  }

  lemma {:induction false} Stalls(w: World, form: HeaderForm, n: nat)
    requires Agrees(w) && form.Short?
    ensures var p := After(w, form, n);
            && ClientGreets(w, p.client)
            && (n >= 1 ==> p.server == Verified(w) && p.toServer == 1)
            && (n == 1 ==> p.toClient == 0) && (n >= 2 ==> p.toClient == 1)
    decreases n
  {
    hide Arrival, ClientGreets, Is, Start;
    FirstSteps(w, form);
    assert After(w, form, 0) == Start(w) && After(w, form, 1) == Deliver(w, form, Start(w));
    if n >= 2 {
      hide Deliver;
      Stalls(w, form, n - 1);
      var p := After(w, form, n - 1);
      StallStep(w, form, p);
    }
  }

  lemma StallStep(w: World, form: HeaderForm, p: Pair)
    requires Agrees(w) && form.Short?
    requires ClientGreets(w, p.client) && p.server == Verified(w) && p.toServer == 1 && p.toClient <= 1
    ensures var q := Deliver(w, form, p);
            ClientGreets(w, q.client) && q.server == Verified(w) && q.toServer == 1 && q.toClient == 1
  {
    hide Arrival, Is;
    ClientDrops(w, form, p.client);
  }

  ghost predicate BothConnected(p: Pair)
  {
    && p.client.peer.Some? && P(p.client).state.Connected? && p.server.peer.Some? && P(p.server).state.Connected?
  }

  /**
   * Client and server that agree on a key complete the handshake exactly if the
   * HelloVerifyRequest, which the server sends without security parameters, has
   * a whole record header. It has not in dtls_set_record_header: there the
   * client takes it for a HelloRequest and the server keeps no peer.
   */
  lemma CompletesExactlyWithWholeHeader(w: World, form: HeaderForm)
    requires Agrees(w)
    ensures (exists n :: BothConnected(After(w, form, n))) <==> form.Full?
  {
    if form.Full? {
      AllSteps(w);
      hide After, ServerConnected, ClientConnected;
      DoneConnected(w, After(w, form, Total(w)));
    } else {
      forall n ensures !BothConnected(After(w, form, n)) {
        Stalls(w, form, n);
        NotConnected(w, After(w, form, n).client);
      }
    }
  }

  lemma DoneConnected(w: World, p: Pair)
    requires Done(w, p)
    ensures BothConnected(p)
  {
  }

  lemma NotConnected(w: World, c: Ctx)
    requires ClientGreets(w, c)
    ensures c.peer.Some? && !P(c).state.Connected?
  {
  }
}
