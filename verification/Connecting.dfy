/**
 * What makes a session connected, over everything that can happen to it: a
 * Finished, awaited, that matches the messages hashed before it arrived.
 */
module Connecting {
  import opened Bytes
  import opened HandshakeCodec
  import opened Engine
  import opened Session
  import opened FirstHandshake
  import Record
  import Slots

  predicate IsConnected(c: Ctx) { c.peer.Some? && P(c).state.Connected? }

  /** A Finished that this peer waits for, with the data of the other side. */
  predicate GoodFinished(env: Env, c: Ctx, m: bytes)
  {
    HasHs(c) && P(c).state.WaitFinished? && MsgType(m) == HT_FINISHED && FinishedMatches(env, c, m)
  }

  // ----- one message -----

  /** A message that is handled and does not connect a waiting peer leaves it as it is, or no longer waiting. */
  lemma HandledWhileWaiting(env: Env, c: Ctx, role: Role, data: bytes)
    requires HasHs(c) && !IsConnected(c) && CanHandle(c, P(c).state, MsgType(data))
    ensures var r := HandleMessage(env, c, role, P(c).state, data);
            && (IsConnected(r.ctx) ==> GoodFinished(env, c, data))
            && (!IsConnected(r.ctx) && r.err >= 0 && r.ctx.peer.Some? && P(r.ctx).state.WaitFinished? ==> r.ctx == c)
  {
    ConnectedByFinished(env, c, role, P(c).state, data);
    hide MsgType, HandleByType, FinishedMatches, CountMessage, ServerFinish, CheckFinished;
    if MsgType(data) != HT_FINISHED && MsgType(data) != HT_HELLO_REQUEST {
      Slots.LeavesWaitFinished(env, c, P(c).state, data);
      Slots.CountSame(HandleByType(env, c, P(c).state, data));
    }
  }

  /** Without handshake parameters a message only begins a handshake. */
  lemma OpeningStays(env: Env, c: Ctx, role: Role, state: State, data: bytes)
    requires !HasHs(c) && !IsConnected(c) && !state.Connected? && Opening(MsgType(data)) && CanHandle(c, state, MsgType(data))
    ensures !IsConnected(HandleMessage(env, c, role, state, data).ctx)
  {
    hide MsgType, VerifyPeer, UpdateParameters, SendServerHelloMsgs, AnswerClientHello, SendClientHello;
  }

  // ----- the reorder queue -----

  lemma QueueApart(env: Env, c: Ctx, queue: seq<bytes>, m: bytes)
    requires HasHs(c)
    ensures GoodFinished(env, WithQueue(c, queue), m) == GoodFinished(env, c, m)
    ensures IsConnected(WithQueue(c, queue)) == IsConnected(c) && P(WithQueue(c, queue)).state == P(c).state
  {
  }

  lemma {:induction false} DrainConnects(env: Env, c: Ctx, role: Role, res: int)
    requires HasHs(c) && !IsConnected(c) && IsConnected(Drain(env, c, role, res).ctx)
    ensures exists m :: m in Hs(c).queue && GoodFinished(env, c, m)
    decreases |Hs(c).queue|
  {
    hide HandleMessage, MsgType, GoodFinished;
    if FindQueued(Hs(c).queue, Hs(c).mseqR).Some? {
      var i := FindQueued(Hs(c).queue, Hs(c).mseqR).value;
      var q, m := Without(Hs(c).queue, i), Hs(c).queue[i];
      var c1 := WithQueue(c, q);
      QueueApart(env, c, q, m);
      HandleMessageQueue(env, c1, role, P(c1).state, m);
      HandledWhileWaiting(env, c1, role, m);
      var r := HandleMessage(env, c1, role, P(c1).state, m);
      if !IsConnected(r.ctx) {
        assert r.err >= 0;
        DrainNeedsHs(env, r.ctx, role, r.err);
        DrainConnects(env, r.ctx, role, r.err);
        var m' :| m' in Hs(r.ctx).queue && GoodFinished(env, r.ctx, m');
        WaitsByThen(env, r.ctx, m');
        QueueApart(env, c, q, m');
        WithoutSubset(Hs(c).queue, i, m');
      }
    }
  }

  lemma WithoutSubset(q: seq<bytes>, i: nat, m: bytes)
    requires i < |q| && m in Without(q, i)
    ensures m in q
  {
  }

  lemma DrainNeedsHs(env: Env, c: Ctx, role: Role, res: int)
    ensures !HasHs(c) ==> Drain(env, c, role, res).ctx == c
  {
  }

  lemma WaitsByThen(env: Env, c: Ctx, m: bytes)
    requires GoodFinished(env, c, m)
    ensures HasHs(c) && P(c).state.WaitFinished?
  {
  }

  /** The message that arrived, or one that was queued. */
  ghost predicate Brought(env: Env, c: Ctx, data: bytes)
  {
    GoodFinished(env, c, data) || (HasHs(c) && exists m :: m in Hs(c).queue && GoodFinished(env, c, m))
  }

  lemma HandshakeConnects(env: Env, c: Ctx, role: Role, state: State, data: bytes)
    requires !IsConnected(c) && Fits(c, state) && IsConnected(HandleHandshake(env, c, role, state, data).ctx)
    ensures Brought(env, c, data)
  {
    hide HandleMessage, MsgType, MsgSeq, Drain, GoodFinished;
    if !HasHs(c) {
      if Opening(MsgType(data)) && CanHandle(c, state, MsgType(data)) {
        OpeningStays(env, c, role, state, data);
      }
    } else if |data| >= HS_LENGTH && MsgSeq(data) == Hs(c).mseqR {
      HandledWhileWaiting(env, c, role, data);
      var r := HandleMessage(env, c, role, state, data);
      if !IsConnected(r.ctx) {
        DrainNeedsHs(env, r.ctx, role, r.err);
        DrainConnects(env, r.ctx, role, r.err);
        var m :| m in Hs(r.ctx).queue && GoodFinished(env, r.ctx, m);
        WaitsByThen(env, r.ctx, m);
      }
    }
  }

  // ----- one record -----

  lemma AlertStays(env: Env, c: Ctx, err: int)
    ensures IsConnected(AlertFromErr(env, c, err)) ==> IsConnected(c)
  {
    hide Send;
  }

  lemma DispatchConnects(env: Env, c: Ctx, packet: bytes, role: Role, state: State, data: bytes)
    requires IsPacket(packet) && !IsConnected(c) && Fits(c, state)
    requires IsConnected(Dispatch(env, c, packet, role, state, data).ctx)
    ensures packet[0] == Record.CT_HANDSHAKE && Brought(env, c, data)
  {
    hide HandleHandshake, AlertFromErr, ExpectedEpoch, Record.ReadHeader, Brought, CalculateKeyBlock, SendAlert;
    AlertStays(env, HandleCcs(env, c, data).ctx, HandleCcs(env, c, data).err);
    if packet[0] == Record.CT_HANDSHAKE {
      var r := HandleHandshake(env, c, role, state, data);
      AlertStays(env, r.ctx, r.err);
      HandshakeConnects(env, c, role, state, data);
    }
  }

  /** Receiving leaves what a Finished is checked against. */
  lemma ReceivedAlike(env: Env, c: Ctx, p: Peer, data: bytes)
    requires c.peer.Some? && p.role == P(c).role && p.state == P(c).state && p.hs == P(c).hs
    ensures Brought(env, SetPeer(c, p), data) == Brought(env, c, data)
  {
    assert forall m :: GoodFinished(env, SetPeer(c, p), m) == GoodFinished(env, c, m);
  }

  /**
   * Whatever happens to a session that is not connected, it is connected
   * afterwards only if a handshake record arrived and was read under a peer that
   * waits for Finished, and the message in it, or one that waited in the queue,
   * is a Finished that matches what was hashed before.
   */
  lemma ConnectedByArrival(env: Env, c: Ctx, a: Action)
    requires !IsConnected(c) && IsConnected(Act(env, c, a))
    ensures a.Arrives? && IsPacket(a.packet) && a.packet[0] == Record.CT_HANDSHAKE && c.peer.Some?
    ensures var got := Receive(env, P(c), a.packet).1; got.Plain? && Brought(env, c, got.data)
  {
    hide Dispatch, Receive, AlertFromErr, Brought, SendClientHello, SendHandshake, Send;
    if a.Arrives? && IsPacket(a.packet) {
      var packet := a.packet;
      if c.peer.None? {
        DispatchConnects(env, c, packet, Record.Server, WaitClientHello, packet[Record.RH_LENGTH..]);
        NobodyWaits(env, c, packet[Record.RH_LENGTH..]);
      } else {
        ReceiveKeeps(env, P(c), packet);
        var (p, got) := Receive(env, P(c), packet);
        var c1 := SetPeer(c, p);
        if got.Plain? {
          DispatchConnects(env, c1, packet, p.role, p.state, got.data);
          ReceivedAlike(env, c, p, got.data);
        }
      }
    }
  }

  lemma NobodyWaits(env: Env, c: Ctx, data: bytes)
    requires c.peer.None?
    ensures !Brought(env, c, data)
  {
  }

  /** So in every run: each time a session becomes connected. */
  lemma ConnectedByFinishedInEveryRun(env: Env, actions: seq<Action>, k: nat)
    requires k < |actions| && !IsConnected(Run(env, actions[..k])) && IsConnected(Run(env, actions[..k + 1]))
    ensures var c, a := Run(env, actions[..k]), actions[k];
            && a.Arrives? && IsPacket(a.packet) && a.packet[0] == Record.CT_HANDSHAKE
            && HasHs(c) && P(c).state.WaitFinished?
            && Receive(env, P(c), a.packet).1.Plain?
            && exists m :: (m == Receive(env, P(c), a.packet).1.data || m in Hs(c).queue) && GoodFinished(env, c, m)
  {
    assert actions[..k + 1][..k] == actions[..k];
    var c, a := Run(env, actions[..k]), actions[k];
    hide Act, Receive, Run, GoodFinished, IsPacket;
    ConnectedByArrival(env, c, a);
    BroughtIs(env, c, Receive(env, P(c), a.packet).1.data);
  }

  lemma BroughtIs(env: Env, c: Ctx, data: bytes)
    requires Brought(env, c, data)
    ensures HasHs(c) && P(c).state.WaitFinished? && exists m :: (m == data || m in Hs(c).queue) && GoodFinished(env, c, m)
  {
    hide FinishedMatches, MsgType;
  }
}
