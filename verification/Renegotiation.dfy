/**
 * A connected client renegotiates: its ClientHello is sealed, then relabelled,
 * and the server reads it only if the tag happens to fit the older version too.
 */
module Renegotiation {
  import opened Bytes
  import opened HandshakeCodec
  import opened Engine
  import opened Session
  import opened Wire
  import opened HelloBytes
  import opened Interop
  import opened HandshakeRun
  import Record
  import Relabel
  import Replay

  predicate SealedHello(o: Out) { Sendable(o) && Relabels(o) && o.suite.PskCcm8? && !o.bare }

  /** The tag of this record is also the one for the older version. */
  predicate TagsFit(aes: Record.Aes, sender: Role, o: Out)
    requires SealedHello(o)
  {
    Relabel.SameTags(aes, sender, o.keyBlock, HeaderOf(o), o.payload)
  }

  lemma SealedHelloOpens(aes: Record.Aes, sender: Role, form: HeaderForm, o: Out)
    requires SealedHello(o)
    ensures var packet := Datagram(aes, sender, form, o);
            && IsPacket(packet) && packet[0] == o.ctype
            && Record.ReadHeader(packet).epoch == o.epoch && Record.ReadHeader(packet).seqnum == o.seqnum
            && Record.Open(aes, sender.Other(), Record.PskCcm8, o.keyBlock, packet)
            == if TagsFit(aes, sender, o) then Record.Cleartext(o.payload) else Record.Rejected
  {
    DatagramIsRecord(aes, sender, form, o);
    Relabel.RelabelledOpens(aes, sender, o.keyBlock, HeaderOf(o), o.payload);
    hide Relabel.SameTags, Record.Open, Record.SealedBody, Record.ReadHeader, Record.IsRecord;
  }

  /** Its receiver has live parameters for it and has not seen its number. */
  ghost predicate Expects(c: Ctx, sender: Role, o: Out)
  {
    && c.peer.Some? && P(c).role == sender.Other()
    && var s := SecurityOf(P(c), o.epoch);
       s.Some? && s.value.suite.PskCcm8? && s.value.keyBlock == o.keyBlock && o.seqnum > s.value.window.cseq
  }

  /** A sealed Hello is read exactly if its tags fit. */
  lemma ReadExactlyIfTagsFit(env: Env, c: Ctx, sender: Role, form: HeaderForm, o: Out)
    requires SealedHello(o) && Expects(c, sender, o)
    ensures var packet := Datagram(env.aes, sender, form, o);
            && IsPacket(packet)
            && (Receive(env, P(c), packet).1 == Plain(o.payload) <==> TagsFit(env.aes, sender, o))
            && (!TagsFit(env.aes, sender, o) ==> Receive(env, P(c), packet) == (P(c), Failed))
  {
    hide Datagram, Record.ReadHeader, Record.Open, TagsFit, SecurityOf, SetWindow, IsPacket, Relabels;
    SealedHelloOpens(env.aes, sender, form, o);
    SameWindow(P(c), o.epoch);
  }

  lemma SameWindow(p: Peer, epoch: nat)
    requires SecurityOf(p, epoch).Some?
    ensures SetWindow(p, epoch, SecurityOf(p, epoch).value.window) == p
  {
  }

  /** If they do not, a connected peer answers with an error and is left as it was. */
  lemma RefusedUnlessTagsFit(env: Env, c: Ctx, sender: Role, form: HeaderForm, o: Out)
    requires SealedHello(o) && Expects(c, sender, o) && o.epoch != 0 && P(c).state.Connected?
    requires !TagsFit(env.aes, sender, o)
    ensures HandleDatagram(env, c, Datagram(env.aes, sender, form, o)) == R(c, Fatal(DECRYPT_ERROR))
  {
    SealedHelloOpens(env.aes, sender, form, o);
    ReadExactlyIfTagsFit(env, c, sender, form, o);
    hide Datagram, Record.ReadHeader, Receive, TagsFit, Expects;
    assert SetPeer(c, P(c)) == c;
  }

  /** Whether they do depends on the block function: under one they never do, under another always. */
  lemma DependsOnTheCipher(sender: Role, o: Out)
    requires SealedHello(o)
    ensures !TagsFit(Relabel.Spread, sender, o) && TagsFit(Relabel.Flat, sender, o)
  {
    hide Relabel.SameTags;
    Relabel.SpreadRejects(sender, o.keyBlock, HeaderOf(o), o.payload);
    Relabel.FlatAccepts(sender, o.keyBlock, HeaderOf(o), o.payload);
  }

  // ----- between this client and this server -----

  function RenegotiationHello(w: World, draws: nat): Out
  {
    Out(false, Record.CT_HANDSHAKE, 1, 1, Record.PskCcm8, Keys(w), HelloMessage(0, w.client.random(draws), []))
  }

  /** dtls_renegotiate at a connected client */
  lemma ClientRenegotiates(w: World, c: Ctx)
    requires Agrees(w) && Is(c, Record.Client, Connected, Keyed(w, 1), None, None)
    ensures var r := Renegotiate(w.client, c);
            var hs := NewHandshake(1, 0).(clientRandom := w.client.random(c.draws));
            && Is(r.ctx, Record.Client, ClientHello, Keyed(w, 2), None, Some(hs))
            && r.ctx.out == c.out + [RenegotiationHello(w, c.draws)]
  {
    hide ClientHelloBody, HandshakeCodec.Message, SendHandshake, Keys;
    var hs := NewHandshake(0, 0).(clientRandom := w.client.random(c.draws));
    var c1 := SetHs(c, hs).(draws := c.draws + 1);
    SendHandshakeIs(w.client, c1, Record.Client, Connected, Keyed(w, 1), None, hs, HT_CLIENT_HELLO,
                    ClientHelloBody(w.client.random(c.draws), []), false);
  }

  lemma HelloIsSealed(w: World, draws: nat)
    ensures SealedHello(RenegotiationHello(w, draws))
  {
    ClientHelloReads(0, w.client.random(draws), []);
    hide Keys, HelloMessage, MsgSeq;
  }

  lemma ServerExpects(w: World, c: Ctx, draws: nat)
    requires ServerConnected(w, c)
    ensures Expects(c, Record.Client, RenegotiationHello(w, draws)) && P(c).state.Connected?
  {
    SameLookup(P(c), 1);
    hide Keys, HelloMessage, HelloFlight, Verify, ServerFlight;
  }

  lemma {:induction false} IdleStays(w: World, form: HeaderForm, p: Pair, n: nat)
    requires Idle(p)
    ensures Steps(w, form, p, n) == p
    decreases n
  {
    if n > 0 {
      IdleStays(w, form, p, n - 1);
    }
  }

  /**
   * After a handshake that was completed, the client renegotiates. Unless the
   * tag of its ClientHello fits the older version as well, the server stays as
   * it is, and however many records are delivered, the client stays without a
   * connection.
   */
  lemma RenegotiationStalls(w: World)
    requires Agrees(w)
    ensures var p := After(w, Full, Total(w));
            var o := RenegotiationHello(w, p.client.draws);
            var q := p.(client := Renegotiate(w.client, p.client).ctx);
            && SealedHello(o) && q.client.out == p.client.out + [o] && Expects(p.server, Record.Client, o)
            && (!TagsFit(w.server.aes, Record.Client, o) ==>
                  forall n :: n >= 1 ==>
                    var q' := Steps(w, Full, q, n);
                    q' == q.(toServer := |q.client.out|) && q'.server == p.server && P(q'.client).state.ClientHello?)
  {
    hide Renegotiate, ServerConnected, ClientConnected, RenegotiationHello, Expects, SealedHello, TagsFit, Deliver, After,
         Total;
    AllSteps(w);
    var p := After(w, Full, Total(w));
    Greets(w, p);
    var o := RenegotiationHello(w, p.client.draws);
    var q := p.(client := Renegotiate(w.client, p.client).ctx);
    if !TagsFit(w.server.aes, Record.Client, o) {
      Refusal(w, q, o);
      StaysRefused(w, q);
    }
  }

  /** What the client's call does, and what the server makes of the record. */
  lemma Greets(w: World, p: Pair)
    requires Agrees(w) && Done(w, p)
    ensures var o, r := RenegotiationHello(w, p.client.draws), Renegotiate(w.client, p.client);
            && SealedHello(o) && Expects(p.server, Record.Client, o) && o.epoch == 1 && P(p.server).state.Connected?
            && r.ctx.out == p.client.out + [o] && r.ctx.peer.Some? && P(r.ctx).state.ClientHello?
  {
    hide Renegotiate, ServerConnected, Expects, SealedHello, Keys;
    ClientRenegotiates(w, p.client);
    HelloIsSealed(w, p.client.draws);
    ServerExpects(w, p.server, p.client.draws);
  }

  lemma StaysRefused(w: World, q: Pair)
    requires Idle(Deliver(w, Full, q))
    ensures forall n :: n >= 1 ==> Steps(w, Full, q, n) == Deliver(w, Full, q)
  {
    hide Deliver, Idle;
    FewSteps(w, Full, q);
    forall n | n >= 1 ensures Steps(w, Full, q, n) == Deliver(w, Full, q) {
      IdleStays(w, Full, Deliver(w, Full, q), n - 1);
      StepsJoin(w, Full, q, 1, n - 1);
    }
  }

  lemma Refusal(w: World, q: Pair, o: Out)
    requires SealedHello(o) && Expects(q.server, Record.Client, o) && o.epoch != 0 && P(q.server).state.Connected?
    requires !TagsFit(w.server.aes, Record.Client, o)
    requires q.client.out != [] && q.client.out[|q.client.out| - 1] == o && q.toServer == |q.client.out| - 1
    requires q.toClient == |q.server.out|
    ensures var q1 := Deliver(w, Full, q); q1 == q.(toServer := |q.client.out|) && Idle(q1)
  {
    hide TagsFit, Expects, Deliver, HandleDatagram, Datagram, Relabels, Sendable;
    RefusedUnlessTagsFit(w.server, q.server, Record.Client, Full, o);
    ToServer(w, Full, q, o);
  }
}
