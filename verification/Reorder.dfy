/**
 * What the reorder queue of a handshake guarantees (handle_handshake in
 * dtls.c): messages are taken in the order of their numbers, without a repeat
 * or a skip, and in whatever order they arrive the outcome is that of the
 * order in which they were sent.
 */
module Reorder {
  import opened Bytes
  import opened HandshakeCodec
  import opened Engine
  import opened Session
  import Record

  // ----- the queue -----

  ghost predicate Distinct(queue: seq<bytes>)
  {
    forall i, j :: 0 <= i < j < |queue| ==> MsgSeq(queue[i]) != MsgSeq(queue[j])
  }

  ghost predicate AllAtLeast(queue: seq<bytes>, mseq: nat)
  {
    forall i :: 0 <= i < |queue| ==> MsgSeq(queue[i]) >= mseq
  }

  /** Nothing queued is old or could be handled now, and no number is queued twice. */
  ghost predicate QueueInv(c: Ctx)
  {
    HasHs(c) ==> Distinct(Hs(c).queue) && AllAtLeast(Hs(c).queue, Hs(c).mseqR + 1)
  }

  ghost predicate DrainInv(c: Ctx)
  {
    HasHs(c) ==> Distinct(Hs(c).queue) && AllAtLeast(Hs(c).queue, Hs(c).mseqR)
  }

  /** A HelloRequest during a handshake is dropped without being counted. */
  predicate Ignored(state: State, data: bytes) { MsgType(data) == HT_HELLO_REQUEST && !state.Connected? }

  predicate Taken(state: State, data: bytes, err: int) { err >= 0 && !Ignored(state, data) }

  function Counted(mseq: nat): nat { (mseq + 1) % 0x1_0000 }

  /**
   * What handling one message does to the queue and to the expected number,
   * as long as the handshake goes on.
   */
  lemma HandleMessageCounts(env: Env, c: Ctx, role: Role, state: State, data: bytes)
    requires HasHs(c) && !state.WaitClientHello?
    ensures var r := HandleMessage(env, c, role, state, data);
            HasHs(r.ctx) ==>
              && Hs(r.ctx).queue == Hs(c).queue
              && Hs(r.ctx).mseqR == if Taken(state, data, r.err) then Counted(Hs(c).mseqR) else Hs(c).mseqR
  {
    hide VerifyPeer, SendClientHello, ServerFinish, CheckFinished, MsgType, MsgSeq, AnswerClientHello, HandleHelloVerify,
         HandleServerHello, HandleServerKeyExchange, HandleServerHelloDone, HandleCertificateRequest,
         HandleClientKeyExchange;
  }

  lemma HandleMessageKeepsPeer(env: Env, c: Ctx, role: Role, state: State, data: bytes)
    requires HasHs(c) && !P(c).state.WaitClientHello? && !state.WaitClientHello?
    ensures var r := HandleMessage(env, c, role, state, data);
            r.ctx.peer.Some? && P(r.ctx).role == P(c).role && !P(r.ctx).state.WaitClientHello?
  {
    hide VerifyPeer, SendClientHello, ServerFinish, CheckFinished, MsgType, MsgSeq, AnswerClientHello, HandleHelloVerify,
         HandleServerHello, HandleServerKeyExchange, HandleServerHelloDone, HandleCertificateRequest,
         HandleClientKeyExchange;
  }

  // ----- in order, no repeat, no skip -----

  /** The message the loop handles next. */
  function NextMessage(c: Ctx): Option<bytes>
    requires HasHs(c)
  {
    match FindQueued(Hs(c).queue, Hs(c).mseqR)
    case None => None
    case Some(i) => Some(Hs(c).queue[i])
  }

  function AfterTaking(c: Ctx): (c': Ctx)
    requires HasHs(c) && NextMessage(c).Some?
    ensures HasHs(c') && |Hs(c').queue| < |Hs(c).queue| && P(c').state == P(c).state && P(c').role == P(c).role
    ensures Hs(c').mseqR == Hs(c).mseqR
  {
    WithQueue(c, Without(Hs(c).queue, FindQueued(Hs(c).queue, Hs(c).mseqR).value))
  }

  function HandleNext(env: Env, c: Ctx, role: Role): (r: R)
    requires HasHs(c) && NextMessage(c).Some?
    ensures HasHs(r.ctx) ==> |Hs(r.ctx).queue| < |Hs(c).queue|
  {
    HandleMessageQueue(env, AfterTaking(c), role, P(c).state, NextMessage(c).value);
    hide HandleMessage;
    HandleMessage(env, AfterTaking(c), role, P(c).state, NextMessage(c).value)
  }

  /** The numbers of the messages the loop takes, in the order in which it takes them. */
  ghost function DrainTaken(env: Env, c: Ctx, role: Role): seq<nat>
    decreases if HasHs(c) then |Hs(c).queue| else 0
  {
    if !HasHs(c) || NextMessage(c).None? then []
    else
      var r := HandleNext(env, c, role);
      if r.err < 0 then []
      else if Ignored(P(c).state, NextMessage(c).value) then DrainTaken(env, r.ctx, role)
      else [MsgSeq(NextMessage(c).value)] + DrainTaken(env, r.ctx, role)
  }

  ghost predicate Consecutive(ns: seq<nat>, from: nat)
  {
    forall k :: 0 <= k < |ns| ==> ns[k] == (from + k) % 0x1_0000
  }

  lemma ConsecutiveJoins(n: nat, rest: seq<nat>)
    requires n < 0x1_0000 && Consecutive(rest, Counted(n))
    ensures Consecutive([n] + rest, n)
    ensures (Counted(n) + |rest|) % 0x1_0000 == (n + |[n] + rest|) % 0x1_0000
  {
    forall k | 0 <= k < |[n] + rest| ensures ([n] + rest)[k] == (n + k) % 0x1_0000 {
      if k > 0 {
        assert ([n] + rest)[k] == rest[k - 1];
      }
    }
  }

  lemma WithoutKeeps(queue: seq<bytes>, i: nat, mseq: nat)
    requires i < |queue| && Distinct(queue) && AllAtLeast(queue, mseq) && MsgSeq(queue[i]) == mseq
    ensures Distinct(Without(queue, i)) && AllAtLeast(Without(queue, i), mseq + 1)
  {
    var q := Without(queue, i);
    assert forall k :: 0 <= k < |q| ==> q[k] == queue[if k < i then k else k + 1];
  }

  /** The expected number has moved on by as many messages as were taken. */
  ghost predicate Moved(c: Ctx, from: nat, taken: seq<nat>)
  {
    && QueueInv(c)
    && (c.peer.Some? ==> !P(c).state.WaitClientHello?)
    && (HasHs(c) ==> Hs(c).mseqR == (from + |taken|) % 0x1_0000)
  }

  lemma DrainStep(env: Env, c: Ctx, role: Role, res: int)
    ensures !HasHs(c) || NextMessage(c).None? ==> Drain(env, c, role, res) == R(c, res)
    ensures HasHs(c) && NextMessage(c).Some? ==>
              var r := HandleNext(env, c, role);
              Drain(env, c, role, res) == if r.err < 0 then r else Drain(env, r.ctx, role, r.err)
  {
    hide HandleMessage;
  }

  lemma NoneLeft(c: Ctx)
    requires HasHs(c) && DrainInv(c) && NextMessage(c).None?
    ensures QueueInv(c)
  {
  }

  lemma NothingTaken(env: Env, c: Ctx, role: Role)
    requires !HasHs(c)
    ensures DrainTaken(env, c, role) == []
  {
  }

  lemma TakingKeeps(c: Ctx)
    requires HasHs(c) && DrainInv(c) && NextMessage(c).Some?
    ensures QueueInv(AfterTaking(c)) && MsgSeq(NextMessage(c).value) == Hs(c).mseqR
  {
    WithoutKeeps(Hs(c).queue, FindQueued(Hs(c).queue, Hs(c).mseqR).value, Hs(c).mseqR);
  }

  lemma LaterThan(queue: seq<bytes>, mseq: nat)
    requires AllAtLeast(queue, mseq + 1)
    ensures AllAtLeast(queue, mseq) && AllAtLeast(queue, Counted(mseq)) && Counted(mseq) < 0x1_0000
  {
  }

  /** Handling one message from a queue that holds only later ones. */
  lemma HandledKeeps(env: Env, c: Ctx, role: Role, state: State, m: bytes)
    requires HasHs(c) && QueueInv(c) && Hs(c).mseqR < 0x1_0000
    requires !P(c).state.WaitClientHello? && !state.WaitClientHello?
    ensures var r := HandleMessage(env, c, role, state, m);
            && DrainInv(r.ctx) && r.ctx.peer.Some? && !P(r.ctx).state.WaitClientHello?
            && (r.err < 0 || Ignored(state, m) ==> QueueInv(r.ctx))
            && (HasHs(r.ctx) ==> Hs(r.ctx).mseqR < 0x1_0000)
            && (HasHs(r.ctx) ==> Hs(r.ctx).mseqR == if Taken(state, m, r.err) then Counted(Hs(c).mseqR) else Hs(c).mseqR)
  {
    hide HandleMessage, MsgSeq, MsgType, Ignored, Distinct, AllAtLeast, Counted;
    HandleMessageCounts(env, c, role, state, m);
    HandleMessageKeepsPeer(env, c, role, state, m);
    LaterThan(Hs(c).queue, Hs(c).mseqR);
  }

  /** One round of the loop: the number of what is handled, and what holds after it. */
  lemma RoundKeeps(env: Env, c: Ctx, role: Role)
    requires HasHs(c) && DrainInv(c) && !P(c).state.WaitClientHello? && Hs(c).mseqR < 0x1_0000
    requires NextMessage(c).Some?
    ensures var r, m := HandleNext(env, c, role), NextMessage(c).value;
            && MsgSeq(m) == Hs(c).mseqR
            && DrainInv(r.ctx) && r.ctx.peer.Some? && !P(r.ctx).state.WaitClientHello?
            && (r.err < 0 ==> QueueInv(r.ctx))
            && (HasHs(r.ctx) ==>
                  && Hs(r.ctx).mseqR < 0x1_0000
                  && Hs(r.ctx).mseqR == if Taken(P(c).state, m, r.err) then Counted(Hs(c).mseqR) else Hs(c).mseqR)
  {
    hide HandleMessage, MsgSeq, MsgType, NextMessage, AfterTaking, Ignored, QueueInv, DrainInv;
    TakingKeeps(c);
    HandledKeeps(env, AfterTaking(c), role, P(c).state, NextMessage(c).value);
  }

  lemma MovedJoins(c: Ctx, n: nat, rest: seq<nat>)
    requires n < 0x1_0000 && Consecutive(rest, Counted(n)) && Moved(c, Counted(n), rest)
    ensures Consecutive([n] + rest, n) && Moved(c, n, [n] + rest)
  {
    hide QueueInv;
    ConsecutiveJoins(n, rest);
  }

  lemma MovedNot(c: Ctx, n: nat)
    requires QueueInv(c) && (c.peer.Some? ==> !P(c).state.WaitClientHello?)
    requires HasHs(c) ==> Hs(c).mseqR == n < 0x1_0000
    ensures Consecutive([], n) && Moved(c, n, [])
  {
  }

  lemma MovedEnded(c: Ctx, n: nat)
    requires !HasHs(c) && n < 0x1_0000 && (c.peer.Some? ==> !P(c).state.WaitClientHello?)
    ensures Consecutive([n], n) && Moved(c, n, [n]) && Consecutive([], n) && Moved(c, n, [])
  {
  }

  /** Each message the loop takes has the next number, and in the end none is left that could be taken. */
  lemma {:induction false} DrainTakes(env: Env, c: Ctx, role: Role, res: int)
    requires HasHs(c) && DrainInv(c) && !P(c).state.WaitClientHello? && Hs(c).mseqR < 0x1_0000
    ensures Consecutive(DrainTaken(env, c, role), Hs(c).mseqR)
    ensures Moved(Drain(env, c, role, res).ctx, Hs(c).mseqR, DrainTaken(env, c, role))
    decreases |Hs(c).queue|
  {
    hide HandleMessage, MsgSeq, MsgType, Drain, FindQueued, NextMessage, AfterTaking, HandleNext, QueueInv, DrainInv,
         Ignored, Moved, Consecutive, Counted;
    DrainStep(env, c, role, res);
    if NextMessage(c).None? {
      NoneLeft(c);
      MovedNot(c, Hs(c).mseqR);
    } else {
      var m, r := NextMessage(c).value, HandleNext(env, c, role);
      RoundKeeps(env, c, role);
      if r.err < 0 {
        MovedNot(r.ctx, Hs(c).mseqR);
      } else if HasHs(r.ctx) {
        DrainTakes(env, r.ctx, role, r.err);
        if Taken(P(c).state, m, r.err) {
          MovedJoins(Drain(env, r.ctx, role, r.err).ctx, MsgSeq(m), DrainTaken(env, r.ctx, role));
        }
      } else {
        DrainStep(env, r.ctx, role, r.err);
        NothingTaken(env, r.ctx, role);
        MovedEnded(r.ctx, Hs(c).mseqR);
        assert [Hs(c).mseqR] + [] == [Hs(c).mseqR];
      }
    }
  }

  // ----- runs of arrivals -----

  /** A message arrives for the handshake that is going on. */
  ghost function Arrive(env: Env, c: Ctx, data: bytes): R
    requires HasHs(c)
  {
    HandleHandshake(env, c, P(c).role, P(c).state, data)
  }

  /** The numbers of the messages taken when data arrives. */
  ghost function TakenOn(env: Env, c: Ctx, data: bytes): seq<nat>
    requires HasHs(c)
  {
    if |data| < HS_LENGTH || MsgSeq(data) != Hs(c).mseqR then []
    else
      var r := HandleMessage(env, c, P(c).role, P(c).state, data);
      if r.err < 0 then []
      else if Ignored(P(c).state, data) then DrainTaken(env, r.ctx, P(c).role)
      else [MsgSeq(data)] + DrainTaken(env, r.ctx, P(c).role)
  }

  /** One arrival, in order or not, repeated or not. */
  lemma ArriveTakes(env: Env, c: Ctx, data: bytes)
    requires HasHs(c) && Hs(c).mseqR < 0x1_0000 && QueueInv(c) && !P(c).state.WaitClientHello?
    ensures Consecutive(TakenOn(env, c, data), Hs(c).mseqR)
    ensures Moved(Arrive(env, c, data).ctx, Hs(c).mseqR, TakenOn(env, c, data))
  {
    hide HandleMessage, MsgSeq, MsgType, Drain, DrainTaken, Ignored, Moved, Consecutive, Counted;
    if |data| < HS_LENGTH || MsgSeq(data) != Hs(c).mseqR {
      MovedNot(Arrive(env, c, data).ctx, Hs(c).mseqR);
    } else {
      HandledKeeps(env, c, P(c).role, P(c).state, data);
      var role, r := P(c).role, HandleMessage(env, c, P(c).role, P(c).state, data);
      hide QueueInv, DrainInv;
      if r.err < 0 {
        MovedNot(r.ctx, Hs(c).mseqR);
      } else if HasHs(r.ctx) {
        DrainTakes(env, r.ctx, role, r.err);
        if Taken(P(c).state, data, r.err) {
          MovedJoins(Drain(env, r.ctx, role, r.err).ctx, MsgSeq(data), DrainTaken(env, r.ctx, role));
        }
      } else {
        DrainStep(env, r.ctx, role, r.err);
        NothingTaken(env, r.ctx, role);
        MovedEnded(r.ctx, Hs(c).mseqR);
        assert [Hs(c).mseqR] + [] == [Hs(c).mseqR];
      }
    }
  }

  /** What the arrivals lead to, up to the end of the handshake; from there on see AfterTheEnd. */
  ghost function Arrivals(env: Env, c: Ctx, ds: seq<bytes>): Ctx
  {
    if ds == [] then c
    else
      var before := Arrivals(env, c, ds[..|ds| - 1]);
      if HasHs(before) then Arrive(env, before, ds[|ds| - 1]).ctx else before
  }

  ghost function TakenDuring(env: Env, c: Ctx, ds: seq<bytes>): seq<nat>
  {
    if ds == [] then []
    else
      var before, taken := Arrivals(env, c, ds[..|ds| - 1]), TakenDuring(env, c, ds[..|ds| - 1]);
      if HasHs(before) then taken + TakenOn(env, before, ds[|ds| - 1]) else taken
  }

  lemma ConsecutiveExtends(a: seq<nat>, b: seq<nat>, from: nat)
    requires Consecutive(a, from) && Consecutive(b, (from + |a|) % 0x1_0000)
    ensures Consecutive(a + b, from)
    ensures ((from + |a|) % 0x1_0000 + |b|) % 0x1_0000 == (from + |a + b|) % 0x1_0000
  {
    forall k | 0 <= k < |a + b| ensures (a + b)[k] == (from + k) % 0x1_0000 {
      if k >= |a| {
        assert (a + b)[k] == b[k - |a|];
      }
    }
  }

  /**
   * Whatever arrives in whatever order, until the handshake is over the messages
   * taken have consecutive numbers; the queue never holds a number twice, nor
   * one that could be taken; and the number expected next counts the messages
   * taken.
   */
  lemma {:induction false} TakenInOrder(env: Env, c: Ctx, ds: seq<bytes>)
    requires HasHs(c) && Hs(c).mseqR < 0x1_0000 && QueueInv(c) && !P(c).state.WaitClientHello?
    ensures Consecutive(TakenDuring(env, c, ds), Hs(c).mseqR)
    ensures Moved(Arrivals(env, c, ds), Hs(c).mseqR, TakenDuring(env, c, ds))
    decreases |ds|
  {
    hide HandleMessage, MsgSeq, MsgType, Arrive, TakenOn;
    if ds == [] {
    } else {
      hide Consecutive;
      var k := |ds| - 1;
      TakenInOrder(env, c, ds[..k]);
      var c1 := Arrivals(env, c, ds[..k]);
      if HasHs(c1) {
        ArriveTakes(env, c1, ds[k]);
        ConsecutiveExtends(TakenDuring(env, c, ds[..k]), TakenOn(env, c1, ds[k]), Hs(c).mseqR);
      }
    }
  }

  // ----- after the end -----

  /** handle_handshake as it is called for a peer, or for nobody. */
  ghost function Arriving(env: Env, c: Ctx, data: bytes): R
  {
    if c.peer.Some? then HandleHandshake(env, c, P(c).role, P(c).state, data)
    else HandleHandshake(env, c, Record.Server, WaitClientHello, data)
  }

  /** A whole message that may begin a handshake: a ClientHello or a HelloRequest. */
  predicate Begins(data: bytes) { |data| >= HS_LENGTH && Opening(MsgType(data)) }

  /** Without handshake parameters nothing changes, whatever its number, unless the message begins a handshake. */
  lemma AfterTheEnd(env: Env, c: Ctx, data: bytes)
    requires !HasHs(c)
    ensures Arriving(env, c, data).ctx == c || Begins(data)
  {
    hide HandleMessage, MsgType;
  }

  /** And a HelloRequest does begin one at a connected peer, with any number. */
  lemma HelloRequestBeginsAnew(env: Env, c: Ctx, data: bytes)
    requires c.peer.Some? && !HasHs(c) && P(c).state.Connected?
    requires |data| >= HS_LENGTH && MsgType(data) == HT_HELLO_REQUEST
    ensures HasHs(Arriving(env, c, data).ctx)
  {
    hide MsgType, MsgSeq, SendHandshake, ClientHelloBody;
  }

  ghost function AllArrivals(env: Env, c: Ctx, ds: seq<bytes>): Ctx
  {
    if ds == [] then c else Arriving(env, AllArrivals(env, c, ds[..|ds| - 1]), ds[|ds| - 1]).ctx
  }

  /** If nothing that arrives can begin a handshake, all that arrives after its end makes no difference. */
  lemma {:induction false} NothingMore(env: Env, c: Ctx, ds: seq<bytes>)
    requires forall d :: d in ds ==> !Begins(d)
    ensures AllArrivals(env, c, ds) == Arrivals(env, c, ds)
    decreases |ds|
  {
    hide HandleHandshake, Begins;
    if ds != [] {
      NothingMore(env, c, ds[..|ds| - 1]);
      var before := Arrivals(env, c, ds[..|ds| - 1]);
      assert ds[|ds| - 1] in ds;
      if !HasHs(before) {
        AfterTheEnd(env, before, ds[|ds| - 1]);
      }
    }
  }
}
