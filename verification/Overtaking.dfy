/**
 * Records that overtake each other at the end of the handshake: what the server
 * writes right behind its Finished may arrive before it.
 */
module Overtaking {
  import opened Bytes
  import opened HandshakeCodec
  import opened Engine
  import opened Session
  import opened Wire
  import opened Interop
  import opened HandshakeRun
  import Record
  import Replay

  /** What dtls_write of a connected server sends first: record 1 of the new epoch. */
  function ServerData(w: World, data: bytes): Out
  {
    Out(false, Record.CT_APPLICATION_DATA, 1, 1, Record.PskCcm8, Keys(w), data)
  }

  lemma ServerWrites(w: World, c: Ctx, data: bytes)
    requires Agrees(w) && ServerConnected(w, c)
    ensures Write(w.server, c, data).ctx.out == c.out + [ServerData(w, data)]
  {
    hide Send, Keys, HelloFlight, ServerFlight, Verify;
    SendIs(w.server, c, Record.Server, Connected, Keyed(w, 1), Some(Null(2 + Flight(w), 3)), None,
           Record.CT_APPLICATION_DATA, data);
  }

  // ----- at the client -----

  ghost predicate ClientWaitsFinished(w: World, c: Ctx)
  {
    Is(c, Record.Client, WaitFinished, Keyed(w, 1), Some(Null(4, Flight(w) + 1)),
       Some(ChosenHs(w, 4, Flight(w) + 1, Hashed(w) + ClientFinished(w), Master(w), w.id)))
  }

  lemma TakesCcsFirst(w: World, c: Ctx)
    requires Agrees(w) && ClientWaits(w, c)
    ensures ClientWaitsFinished(w, Arrival(w.client, c, Record.Server, Full, Ccs(Flight(w) + 1)))
  {
    hide Hashed, ClientFinished, HandleDatagram, Datagram, Hellos, ClientFlight;
    Fits(w);
    ClientTakesCcs(w, c, Full, ChosenHs(w, 4, Flight(w) + 1, Hashed(w) + ClientFinished(w), Master(w), w.id));
  }

  /** Record 1 was the first one taken under the parameters in slot 0. */
  predicate OneTaken(p: Peer)
  {
    p.slot0.Some? && p.slot0.value.epoch == 1 && p.slot0.value.window.cseq == 1 && p.slot0.value.window.bitfield[0]
  }

  lemma TakesOne(env: Env, p: Peer, packet: bytes, payload: bytes)
    requires Replay.Conforms(env.machine, 1) && IsPacket(packet) && payload != []
    requires p.slot0.Some? && p.slot0.value.epoch == 1 && p.slot0.value.window.cseq == 0
    requires Record.ReadHeader(packet).epoch == 1 && Record.ReadHeader(packet).seqnum == 1
    requires Record.Open(env.aes, p.role, p.slot0.value.suite, p.slot0.value.keyBlock, packet) == Record.Cleartext(payload)
    ensures var (q, got) := Receive(env, p, packet);
            OneTaken(q) && got == Plain(payload) && q.role == p.role && q.state == p.state
  {
    hide Record.Open, Record.ReadHeader;
    assert Replay.Bit(0)[0] && env.machine.one(0) == Replay.Bit(0);
  }

  lemma RefusesZero(env: Env, p: Peer, packet: bytes)
    requires Replay.Conforms(env.machine, 1) && IsPacket(packet) && OneTaken(p)
    requires Record.ReadHeader(packet).epoch == 1 && Record.ReadHeader(packet).seqnum == 0
    ensures Receive(env, p, packet) == (p, Dropped)
  {
    hide Record.Open, Record.ReadHeader;
    assert Replay.Bit(0)[0] && env.machine.one(0) == Replay.Bit(0);
  }

  /** The client reads what overtook the Finished. */
  lemma TakesData(w: World, c: Ctx, data: bytes)
    requires Replay.Conforms(w.client.machine, 1) && ClientWaitsFinished(w, c) && 0 < |data| < 0xFFF0
    ensures var c' := Arrival(w.client, c, Record.Server, Full, ServerData(w, data));
            c'.peer.Some? && OneTaken(P(c')) && P(c').state.WaitFinished?
  {
    hide Datagram, Record.ReadHeader, Record.Open, Receive, Keys, Hashed, Master, ClientFinished, OneTaken;
    var o := ServerData(w, data);
    DatagramOpens(w.client.aes, Record.Server, Full, o);
    TakesOne(w.client, P(c), Datagram(w.client.aes, Record.Server, Full, o), data);
  }

  /** Any number of copies of the Finished after that change nothing. */
  ghost function FinishedAgain(w: World, c: Ctx, n: nat): Ctx
  {
    if n == 0 then c
    else Arrival(w.client, FinishedAgain(w, c, n - 1), Record.Server, Full, Sealed(w, ServerFinished(w)))
  }

  lemma FinishedRefused(w: World, c: Ctx)
    requires Agrees(w) && Replay.Conforms(w.client.machine, 1) && c.peer.Some? && OneTaken(P(c))
    ensures Arrival(w.client, c, Record.Server, Full, Sealed(w, ServerFinished(w))) == c
  {
    FinishedFacts(w);
    FirstByte(ServerFinished(w));
    Fits(w);
    hide Datagram, Record.ReadHeader, Record.Open, Receive, Keys, ServerFinished, OneTaken, MsgType, MsgSeq, Hashed, Master,
         ClientFinished, Sub, IsPacket, Sendable;
    var o := Sealed(w, ServerFinished(w));
    var packet := Datagram(w.client.aes, Record.Server, Full, o);
    DatagramOpens(w.client.aes, Record.Server, Full, o);
    RefusesZero(w.client, P(c), packet);
  }

  lemma {:induction false} StaysRefused(w: World, c: Ctx, n: nat)
    requires Agrees(w) && Replay.Conforms(w.client.machine, 1) && c.peer.Some? && OneTaken(P(c))
    ensures FinishedAgain(w, c, n) == c
    decreases n
  {
    hide Arrival, OneTaken, Replay.Conforms, Agrees;
    if n > 0 {
      StaysRefused(w, c, n - 1);
      FinishedRefused(w, c);
    }
  }

  predicate IsConnected(c: Ctx) { c.peer.Some? && P(c).state.Connected? }

  lemma InOrder(w: World, c: Ctx, data: bytes)
    requires Agrees(w) && ClientWaitsFinished(w, c) && 0 < |data| < 0xFFF0
    ensures var done := FinishedAgain(w, c, 1);
            IsConnected(done) && IsConnected(Arrival(w.client, done, Record.Server, Full, ServerData(w, data)))
  {
    hide Datagram, HandleDatagram, Keys, ServerFinished, Hashed, Master, ClientFinished, Agrees;
    Fits(w);
    ClientTakesFinished(w, c, Full);
    assert FinishedAgain(w, c, 0) == c;
    var done := FinishedAgain(w, c, 1);
    assert done == Arrival(w.client, c, Record.Server, Full, Sealed(w, ServerFinished(w)));
    StaysConnected(w, done, data);
  }

  lemma StaysConnected(w: World, c: Ctx, data: bytes)
    requires Is(c, Record.Client, Connected, Keyed(w, 1), None, None) && 0 < |data| < 0xFFF0
    ensures IsConnected(Arrival(w.client, c, Record.Server, Full, ServerData(w, data)))
  {
    hide Datagram, Record.ReadHeader, Receive, Keys, HandleDatagram;
    var o := ServerData(w, data);
    assert Delivers(w.client, c, Record.Server, Full, o);
    Delivered(w.client, c, Record.Server, Full, o);
  }

  /**
   * If what the server writes next arrives between its ChangeCipherSpec and its
   * Finished, the client never connects, however often the Finished is repeated;
   * if it arrives behind them, the client is connected before it and after it.
   */
  lemma DataMustNotOvertake(w: World, data: bytes)
    requires Agrees(w) && Replay.Conforms(w.client.machine, 1) && 0 < |data| < 0xFFF0
    ensures var p := After(w, Full, 6 + Flight(w));
            var c := Arrival(w.client, p.client, Record.Server, Full, Ccs(Flight(w) + 1));
            var late := Arrival(w.client, c, Record.Server, Full, ServerData(w, data));
            && ServerConnected(w, p.server)
            && Write(w.server, p.server, data).ctx.out == p.server.out + [ServerData(w, data)]
            && !IsConnected(late) && (forall n: nat :: FinishedAgain(w, late, n) == late)
            && IsConnected(FinishedAgain(w, c, 1))
            && IsConnected(Arrival(w.client, FinishedAgain(w, c, 1), Record.Server, Full, ServerData(w, data)))
  {
    hide Arrival, ServerConnected, ClientWaits, ClientWaitsFinished, OneTaken, Flight, Write, Steps, Agrees,
         Replay.Conforms, FinishedAgain;
    ServerFirst(w);
    var p := After(w, Full, 6 + Flight(w));
    ServerWrites(w, p.server, data);
    TakesCcsFirst(w, p.client);
    var c := Arrival(w.client, p.client, Record.Server, Full, Ccs(Flight(w) + 1));
    TakesData(w, c, data);
    var late := Arrival(w.client, c, Record.Server, Full, ServerData(w, data));
    forall n: nat ensures FinishedAgain(w, late, n) == late {
      StaysRefused(w, late, n);
    }
    InOrder(w, c, data);
  }
}
