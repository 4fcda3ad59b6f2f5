/**
 * The order in which the messages of a handshake arrive, and how often each of
 * them does, makes no difference (handle_handshake in dtls.c).
 */
module ArrivalOrder {
  import opened Bytes
  import opened HandshakeCodec
  import opened Engine
  import opened Session
  import opened Reorder
  import opened QueueBlind

  // ----- the reference: the messages one after the other, without a queue -----

  ghost function Handled(env: Env, c: Ctx, m: bytes): R
    requires HasHs(c) && !P(c).state.WaitClientHello?
  {
    HandleMessage(env, c, P(c).role, P(c).state, m)
  }

  /** After the first k messages in the order of their numbers. */
  ghost function InOrder(env: Env, c: Ctx, ms: seq<bytes>, k: nat): Ctx
    requires k <= |ms|
  {
    if k == 0 then c
    else
      var before := InOrder(env, c, ms, k - 1);
      if HasHs(before) && !P(before).state.WaitClientHello? then Handled(env, before, ms[k - 1]).ctx else before
  }

  /** Handed over in order, each message is taken and the handshake goes on at least until the last. */
  ghost predicate Smooth(env: Env, c: Ctx, ms: seq<bytes>)
  {
    forall k :: 0 <= k < |ms| ==>
                  var d := InOrder(env, c, ms, k);
                  && HasHs(d) && !P(d).state.WaitClientHello?
                  && Taken(P(d).state, ms[k], Handled(env, d, ms[k]).err)
  }

  /** The messages that follow number from: consecutive, whole, and small enough to be queued. */
  ghost predicate Flight(ms: seq<bytes>, from: nat)
  {
    && from + |ms| < 0x1_0000
    && forall j :: 0 <= j < |ms| ==> MsgSeq(ms[j]) == from + j && HS_LENGTH <= |ms[j]| <= DTLS_MAX_BUF
  }

  /** A handshake with an empty queue that expects the first of these messages. */
  ghost predicate Start(c: Ctx, ms: seq<bytes>)
  {
    && HasHs(c) && !P(c).state.WaitClientHello?
    && Hs(c).queue == [] && Hs(c).mseqR < 0x1_0000 && Flight(ms, Hs(c).mseqR)
  }

  lemma CountsOn(from: nat, k: nat)
    requires k > 0
    ensures Counted((from + (k - 1)) % 0x1_0000) == (from + k) % 0x1_0000
  {
  }

  lemma {:induction false} InOrderCounts(env: Env, c: Ctx, ms: seq<bytes>, k: nat)
    requires Start(c, ms) && k <= |ms| && Smooth(env, c, ms)
    ensures var d := InOrder(env, c, ms, k);
            && (HasHs(d) ==> Hs(d).mseqR == (Hs(c).mseqR + k) % 0x1_0000 && Hs(d).queue == Hs(c).queue)
            && d.peer.Some? && !P(d).state.WaitClientHello? && P(d).role == P(c).role
            && (k < |ms| ==> HasHs(d))
    decreases k
  {
    hide HandleMessage, Taken, Flight, Counted;
    if k > 0 {
      var d := InOrder(env, c, ms, k - 1);
      InOrderCounts(env, c, ms, k - 1);
      CountsOn(Hs(c).mseqR, k);
      HandleMessageCounts(env, d, P(d).role, P(d).state, ms[k - 1]);
      HandleMessageKeepsPeer(env, d, P(d).role, P(d).state, ms[k - 1]);
    }
  }

  // ----- the queue in terms of what has arrived -----

  /** The queue holds exactly the arrived messages of the flight from number k on. */
  ghost predicate HoldsFrom(q: seq<bytes>, ms: seq<bytes>, k: nat, arrived: set<nat>)
  {
    && (forall m :: m in q ==> exists j :: k <= j < |ms| && j in arrived && ms[j] == m)
    && (forall j :: k <= j < |ms| && j in arrived ==> ms[j] in q)
  }

  /** The queue of c holds exactly the arrived messages from number k on. */
  ghost predicate Holds(c: Ctx, ms: seq<bytes>, k: nat, arrived: set<nat>)
  {
    HasHs(c) ==>
      DrainInv(c) && HoldsFrom(Hs(c).queue, ms, k, arrived)
  }

  /** c has got as far as message k, with the later ones in its queue. */
  ghost predicate Reached(env: Env, c0: Ctx, ms: seq<bytes>, c: Ctx, k: nat, arrived: set<nat>)
  {
    && k <= |ms| && Holds(c, ms, k, arrived)
    && c == if HasHs(c) then WithQ(InOrder(env, c0, ms, k), Hs(c).queue) else InOrder(env, c0, ms, k)
  }

  lemma ReachedBasics(env: Env, c0: Ctx, ms: seq<bytes>, c: Ctx, k: nat, arrived: set<nat>)
    requires Start(c0, ms) && Smooth(env, c0, ms) && Reached(env, c0, ms, c, k, arrived)
    ensures HasHs(c) == HasHs(InOrder(env, c0, ms, k)) && (k < |ms| ==> HasHs(c))
    ensures HasHs(c) ==> Hs(c).mseqR == (Hs(c0).mseqR + k) % 0x1_0000
    ensures var d := InOrder(env, c0, ms, k);
            && c.peer.Some? && d.peer.Some? && !P(c).state.WaitClientHello?
            && P(c).state == P(d).state && P(c).role == P(d).role == P(c0).role
  {
    hide HandleMessage, Smooth, Holds;
    InOrderCounts(env, c0, ms, k);
    hide InOrder;
  }

  /** Handling message k leads on to k + 1, with the queue as it is. */
  lemma HandledReaches(env: Env, c0: Ctx, ms: seq<bytes>, c: Ctx, k: nat, q: seq<bytes>)
    requires Start(c0, ms) && Smooth(env, c0, ms) && k < |ms|
    requires HasHs(c) && c == WithQ(InOrder(env, c0, ms, k), q)
    ensures var r := HandleMessage(env, c, P(c).role, P(c).state, ms[k]);
            && r.err >= 0 && HasHs(r.ctx) == HasHs(InOrder(env, c0, ms, k + 1))
            && r.ctx == WithQ(InOrder(env, c0, ms, k + 1), q)
  {
    hide HandleMessage, HandleMessage;
    InOrderCounts(env, c0, ms, k);
    var d := InOrder(env, c0, ms, k);
    HandleMessageBlind(env, d, P(d).role, P(d).state, ms[k], q);
  }

  /** A queued message that could be handled is the next of the flight. */
  lemma NextIsTheNext(env: Env, c0: Ctx, ms: seq<bytes>, c: Ctx, k: nat, arrived: set<nat>)
    requires Start(c0, ms) && Smooth(env, c0, ms) && Reached(env, c0, ms, c, k, arrived) && HasHs(c)
    ensures if NextMessage(c).Some? then k < |ms| && k in arrived && NextMessage(c).value == ms[k]
            else k < |ms| ==> k !in arrived
  {
    hide HandleMessage, Smooth, InOrder;
    ReachedBasics(env, c0, ms, c, k, arrived);
    if NextMessage(c).Some? {
      var m := NextMessage(c).value;
      assert m in Hs(c).queue;
      var j :| k <= j < |ms| && j in arrived && ms[j] == m;
      assert MsgSeq(ms[j]) == Hs(c0).mseqR + j;
    } else if k < |ms| && k in arrived {
      assert false;
    }
  }

  // ----- catching up -----

  /** The first number from k on that is still missing. */
  ghost function Progress(n: nat, arrived: set<nat>, k: nat): (r: nat)
    requires k <= n
    ensures k <= r <= n && (r < n ==> r !in arrived)
    decreases n - k
  {
    if k < n && k in arrived then Progress(n, arrived, k + 1) else k
  }

  lemma {:induction false} ProgressSkips(n: nat, arrived: set<nat>, more: set<nat>, k: nat)
    requires k <= n && arrived <= more
    ensures Progress(n, more, k) == Progress(n, more, Progress(n, arrived, k))
    decreases n - k
  {
    if k < n && k in arrived {
      ProgressSkips(n, arrived, more, k + 1);
    }
  }

  lemma WithoutHolds(queue: seq<bytes>, i: nat, ms: seq<bytes>, from: nat, k: nat, arrived: set<nat>)
    requires Flight(ms, from) && Distinct(queue) && HoldsFrom(queue, ms, k, arrived)
    requires i < |queue| && k < |ms| && queue[i] == ms[k]
    ensures HoldsFrom(Without(queue, i), ms, k + 1, arrived)
  {
    hide MsgSeq;
    var q := Without(queue, i);
    forall m | m in q ensures exists j :: k + 1 <= j < |ms| && j in arrived && ms[j] == m {
      var a :| 0 <= a < |q| && q[a] == m;
      var b := if a < i then a else a + 1;
      assert q[a] == queue[b] && b != i;
      assert MsgSeq(queue[b]) != MsgSeq(queue[i]);
      assert m in queue;
    }
    forall j | k + 1 <= j < |ms| && j in arrived ensures ms[j] in q {
      assert ms[j] in queue;
      var b :| 0 <= b < |queue| && queue[b] == ms[j];
      assert MsgSeq(ms[j]) != MsgSeq(ms[k]);
      assert q[if b < i then b else b - 1] == ms[j];
    }
  }

  /** Without the message taken out of the queue, the queue holds what belongs behind it. */
  lemma TakenOut(env: Env, c0: Ctx, ms: seq<bytes>, c: Ctx, k: nat, arrived: set<nat>)
    requires Start(c0, ms) && Smooth(env, c0, ms) && Reached(env, c0, ms, c, k, arrived) && HasHs(c)
    requires NextMessage(c).Some? && k < |ms| && NextMessage(c).value == ms[k]
    ensures var q := Hs(AfterTaking(c)).queue;
            AfterTaking(c) == WithQ(InOrder(env, c0, ms, k), q) && HoldsFrom(q, ms, k + 1, arrived)
  {
    hide HandleMessage, Smooth, InOrder, HoldsFrom, Flight, Distinct;
    WithoutHolds(Hs(c).queue, FindQueued(Hs(c).queue, Hs(c).mseqR).value, ms, Hs(c0).mseqR, k, arrived);
  }

  /** With message k handled and the later ones queued, the next is reached. */
  lemma NextReached(env: Env, c0: Ctx, ms: seq<bytes>, c: Ctx, k: nat, arrived: set<nat>, q: seq<bytes>)
    requires Start(c0, ms) && Smooth(env, c0, ms) && k < |ms|
    requires c == WithQ(InOrder(env, c0, ms, k + 1), q) && DrainInv(c)
    requires HoldsFrom(q, ms, k + 1, arrived)
    ensures Reached(env, c0, ms, c, k + 1, arrived)
  {
    hide HandleMessage, Smooth, InOrder;
  }

  lemma RoundReaches(env: Env, c0: Ctx, ms: seq<bytes>, c: Ctx, k: nat, arrived: set<nat>, role: Role)
    requires Start(c0, ms) && Smooth(env, c0, ms) && Reached(env, c0, ms, c, k, arrived) && role == P(c0).role
    requires HasHs(c) && NextMessage(c).Some?
    ensures k < |ms| && k in arrived
    ensures var r := HandleNext(env, c, role); r.err >= 0 && Reached(env, c0, ms, r.ctx, k + 1, arrived)
  {
    hide HandleMessage, Smooth, InOrder, Flight, HoldsFrom, NextMessage, AfterTaking, WithQ, DrainInv;
    ReachedBasics(env, c0, ms, c, k, arrived);
    NextIsTheNext(env, c0, ms, c, k, arrived);
    TakenOut(env, c0, ms, c, k, arrived);
    var q := Hs(AfterTaking(c)).queue;
    HandledReaches(env, c0, ms, AfterTaking(c), k, q);
    RoundKeeps(env, c, role);
    NextReached(env, c0, ms, HandleNext(env, c, role).ctx, k, arrived, q);
  }

  /** The loop takes what has arrived up to the first message that is missing. */
  lemma {:induction false} DrainCatchesUp(env: Env, c0: Ctx, ms: seq<bytes>, c: Ctx, k: nat, arrived: set<nat>,
                                          role: Role, res: int)
    requires Start(c0, ms) && Smooth(env, c0, ms) && Reached(env, c0, ms, c, k, arrived) && role == P(c0).role
    ensures Reached(env, c0, ms, Drain(env, c, role, res).ctx, Progress(|ms|, arrived, k), arrived)
    decreases |ms| - k
  {
    hide HandleMessage, Smooth, InOrder, Start, Drain, NextMessage, HandleNext, Reached;
    DrainStep(env, c, role, res);
    ReachedBound(env, c0, ms, c, k, arrived);
    if HasHs(c) && NextMessage(c).Some? {
      RoundReaches(env, c0, ms, c, k, arrived, role);
      var r := HandleNext(env, c, role);
      DrainCatchesUp(env, c0, ms, r.ctx, k + 1, arrived, role, r.err);
    } else if HasHs(c) {
      NextIsTheNext(env, c0, ms, c, k, arrived);
    }
  }

  lemma ReachedBound(env: Env, c0: Ctx, ms: seq<bytes>, c: Ctx, k: nat, arrived: set<nat>)
    requires Start(c0, ms) && Smooth(env, c0, ms) && Reached(env, c0, ms, c, k, arrived)
    ensures k <= |ms| && (!HasHs(c) ==> k == |ms|)
  {
    hide HandleMessage, Smooth, InOrder, Start;
    ReachedBasics(env, c0, ms, c, k, arrived);
  }

  // ----- one arrival -----

  /** An arrival that is not next: too old, queued already, or queued now. */
  lemma LaterArrives(env: Env, c0: Ctx, ms: seq<bytes>, c: Ctx, k: nat, arrived: set<nat>, j: nat)
    requires Start(c0, ms) && Smooth(env, c0, ms) && Reached(env, c0, ms, c, k, arrived) && HasHs(c)
    requires j < |ms| && j != k && (k < |ms| ==> k !in arrived)
    ensures Reached(env, c0, ms, Arrive(env, c, ms[j]).ctx, k, arrived + {j})
  {
    var q, from := Hs(c).queue, Hs(c0).mseqR;
    var q' := if j > k && FindQueued(q, MsgSeq(ms[j])).None? then q + [ms[j]] else q;
    LaterNumbers(env, c0, ms, c, k, arrived, j);
    hide Reached, Arrive, HoldsFrom, Distinct, AllAtLeast, WithQ, Flight, Start, MsgSeq, Smooth, FindQueued, InOrder;
    LaterIsKept(env, c, ms[j]);
    if j > k {
      QueueTakes(q, ms, from, k, arrived, j);
    } else {
      EarlierHolds(q, ms, k, arrived, j);
    }
    SameQueue(c);
    RequeuedReached(env, c0, ms, c, k, arrived, q', arrived + {j});
  }

  lemma LaterNumbers(env: Env, c0: Ctx, ms: seq<bytes>, c: Ctx, k: nat, arrived: set<nat>, j: nat)
    requires Start(c0, ms) && Smooth(env, c0, ms) && Reached(env, c0, ms, c, k, arrived) && HasHs(c)
    requires j < |ms| && j != k
    ensures |ms[j]| >= HS_LENGTH && |ms[j]| <= DTLS_MAX_BUF && Flight(ms, Hs(c0).mseqR)
    ensures MsgSeq(ms[j]) != Hs(c).mseqR && (MsgSeq(ms[j]) > Hs(c).mseqR <==> j > k)
    ensures HoldsFrom(Hs(c).queue, ms, k, arrived) && Distinct(Hs(c).queue) && AllAtLeast(Hs(c).queue, Hs(c).mseqR)
    ensures j > k ==> Hs(c).mseqR == Hs(c0).mseqR + k
  {
    hide HandleMessage, InOrder, MsgSeq, HoldsFrom, Distinct, AllAtLeast, WithQ;
    ReachedBasics(env, c0, ms, c, k, arrived);
    FlightAt(c0, ms, j);
  }

  lemma EarlierHolds(q: seq<bytes>, ms: seq<bytes>, k: nat, arrived: set<nat>, j: nat)
    requires HoldsFrom(q, ms, k, arrived) && j < k
    ensures HoldsFrom(q, ms, k, arrived + {j})
  {
    forall m | m in q ensures exists i :: k <= i < |ms| && i in arrived + {j} && ms[i] == m {
      var i :| k <= i < |ms| && i in arrived && ms[i] == m;
    }
  }

  lemma SameQueue(c: Ctx)
    requires HasHs(c)
    ensures WithQueue(c, Hs(c).queue) == c
  {
  }

  /** With another queue that holds what has arrived by now, the same number is reached. */
  lemma RequeuedReached(env: Env, c0: Ctx, ms: seq<bytes>, c: Ctx, k: nat, arrived: set<nat>, q: seq<bytes>, more: set<nat>)
    requires Reached(env, c0, ms, c, k, arrived) && HasHs(c)
    requires HoldsFrom(q, ms, k, more) && Distinct(q) && AllAtLeast(q, Hs(c).mseqR)
    ensures Reached(env, c0, ms, WithQueue(c, q), k, more)
  {
    hide HandleMessage, InOrder, HoldsFrom, Distinct, AllAtLeast;
  }

  lemma LaterIsKept(env: Env, c: Ctx, m: bytes)
    requires HasHs(c) && |m| >= HS_LENGTH && MsgSeq(m) != Hs(c).mseqR
    ensures Arrive(env, c, m).ctx == if MsgSeq(m) > Hs(c).mseqR && Queueable(Hs(c), m)
                                     then WithQueue(c, Hs(c).queue + [m]) else c
  {
    hide HandleMessage, Drain, MsgSeq, Queueable;
  }

  lemma QueueTakes(q: seq<bytes>, ms: seq<bytes>, from: nat, k: nat, arrived: set<nat>, j: nat)
    requires Flight(ms, from) && HoldsFrom(q, ms, k, arrived) && k < j < |ms| && Distinct(q) && AllAtLeast(q, from + k)
    ensures var q' := if FindQueued(q, MsgSeq(ms[j])).None? then q + [ms[j]] else q;
            HoldsFrom(q', ms, k, arrived + {j}) && Distinct(q') && AllAtLeast(q', from + k)
  {
    hide MsgSeq;
    var f := FindQueued(q, MsgSeq(ms[j]));
    if f.Some? {
      assert q[f.value] in q;
      var i :| k <= i < |ms| && i in arrived && ms[i] == q[f.value];
      assert MsgSeq(ms[i]) == MsgSeq(ms[j]);
      assert i == j;
    } else {
      var q' := q + [ms[j]];
      forall m | m in q' ensures exists i :: k <= i < |ms| && i in arrived + {j} && ms[i] == m {
        if m in q {
          var i :| k <= i < |ms| && i in arrived && ms[i] == m;
        } else {
          assert ms[j] == m;
        }
      }
    }
  }

  lemma ArriveNow(env: Env, c: Ctx, m: bytes)
    requires HasHs(c) && !P(c).state.WaitClientHello? && |m| >= HS_LENGTH && MsgSeq(m) == Hs(c).mseqR
    ensures var r := Handled(env, c, m);
            Arrive(env, c, m) == if r.err < 0 then r else Drain(env, r.ctx, P(c).role, r.err)
  {
    hide HandleMessage, Drain, MsgSeq;
  }

  lemma NextHandled(env: Env, c0: Ctx, ms: seq<bytes>, c: Ctx, k: nat, arrived: set<nat>)
    requires Start(c0, ms) && Smooth(env, c0, ms) && Reached(env, c0, ms, c, k, arrived) && HasHs(c)
    requires k < |ms| && k !in arrived && !P(c).state.WaitClientHello? && Hs(c).mseqR < 0x1_0000
    ensures var r := Handled(env, c, ms[k]); r.err >= 0 && Reached(env, c0, ms, r.ctx, k + 1, arrived + {k})
  {
    var role, state, q := P(c).role, P(c).state, Hs(c).queue;
    QueueNow(env, c0, ms, c, k, arrived);
    hide HandleMessage, Smooth, InOrder, MsgSeq, Flight, HoldsFrom, WithQ, DrainInv, QueueInv;
    HandledReaches(env, c0, ms, c, k, q);
    HoldsNext(q, ms, k, arrived);
    HandledKeeps(env, c, role, state, ms[k]);
    NextReached(env, c0, ms, HandleMessage(env, c, role, state, ms[k]).ctx, k, arrived + {k}, q);
  }

  lemma FlightAt(c0: Ctx, ms: seq<bytes>, k: nat)
    requires Start(c0, ms) && k < |ms|
    ensures |ms[k]| >= HS_LENGTH && MsgSeq(ms[k]) == Hs(c0).mseqR + k == (Hs(c0).mseqR + k) % 0x1_0000
  {
    hide MsgSeq;
  }

  /** The message that is next arrives. */
  lemma NextArrives(env: Env, c0: Ctx, ms: seq<bytes>, c: Ctx, k: nat, arrived: set<nat>)
    requires Start(c0, ms) && Smooth(env, c0, ms) && Reached(env, c0, ms, c, k, arrived) && HasHs(c)
    requires k < |ms| && k !in arrived
    ensures Reached(env, c0, ms, Arrive(env, c, ms[k]).ctx, Progress(|ms|, arrived + {k}, k), arrived + {k})
  {
    hide HandleMessage, Smooth, InOrder, Drain, MsgSeq, Handled, Arrive, Reached, Start, Flight;
    ReachedBasics(env, c0, ms, c, k, arrived);
    FlightAt(c0, ms, k);
    ArriveNow(env, c, ms[k]);
    NextHandled(env, c0, ms, c, k, arrived);
    var r := Handled(env, c, ms[k]);
    DrainCatchesUp(env, c0, ms, r.ctx, k + 1, arrived + {k}, P(c).role, r.err);
  }

  lemma HoldsNext(q: seq<bytes>, ms: seq<bytes>, k: nat, arrived: set<nat>)
    requires HoldsFrom(q, ms, k, arrived) && k < |ms| && k !in arrived
    ensures HoldsFrom(q, ms, k + 1, arrived + {k})
  {
    forall m | m in q ensures exists j :: k + 1 <= j < |ms| && j in arrived + {k} && ms[j] == m {
      var j :| k <= j < |ms| && j in arrived && ms[j] == m;
    }
  }

  /** While message k is missing, nothing queued could be handled. */
  lemma QueueNow(env: Env, c0: Ctx, ms: seq<bytes>, c: Ctx, k: nat, arrived: set<nat>)
    requires Start(c0, ms) && Smooth(env, c0, ms) && Reached(env, c0, ms, c, k, arrived) && HasHs(c)
    requires k < |ms| && k !in arrived
    ensures QueueInv(c)
  {
    hide HandleMessage, Smooth, InOrder, Drain, MsgSeq;
    NextIsTheNext(env, c0, ms, c, k, arrived);
    NoneLeft(c);
  }

  // ----- all arrivals -----

  ghost function ArrivedBy(ms: seq<bytes>, ds: seq<bytes>): set<nat>
  {
    set j | 0 <= j < |ms| && ms[j] in ds
  }

  lemma OneArrival(env: Env, c0: Ctx, ms: seq<bytes>, c: Ctx, k: nat, arrived: set<nat>, j: nat)
    requires Start(c0, ms) && Smooth(env, c0, ms) && Reached(env, c0, ms, c, k, arrived)
    requires j < |ms| && k == Progress(|ms|, arrived, 0)
    ensures var c' := if HasHs(c) then Arrive(env, c, ms[j]).ctx else c;
            Reached(env, c0, ms, c', Progress(|ms|, arrived + {j}, 0), arrived + {j})
  {
    ProgressSkips(|ms|, arrived, arrived + {j}, 0);
    ReachedBound(env, c0, ms, c, k, arrived);
    hide HandleMessage, Smooth, InOrder, Drain, MsgSeq, Handled, Start;
    if !HasHs(c) {
    } else if j == k {
      NextArrives(env, c0, ms, c, k, arrived);
    } else {
      LaterArrives(env, c0, ms, c, k, arrived, j);
    }
  }

  /** What any arrivals have led to: as many messages handled in order as have arrived without a gap. */
  lemma {:induction false} ArrivalsReach(env: Env, c0: Ctx, ms: seq<bytes>, ds: seq<bytes>)
    requires Start(c0, ms) && Smooth(env, c0, ms) && forall d :: d in ds ==> d in ms
    ensures Reached(env, c0, ms, Arrivals(env, c0, ds), Progress(|ms|, ArrivedBy(ms, ds), 0), ArrivedBy(ms, ds))
    decreases |ds|
  {
    hide HandleMessage, Smooth, Drain, MsgSeq, Handled, Arrive;
    if ds == [] {
      assert WithQ(c0, []) == c0;
    } else {
      var n := |ds| - 1;
      var before := ArrivedBy(ms, ds[..n]);
      ArrivalsReach(env, c0, ms, ds[..n]);
      assert ds[n] in ms;
      var j :| 0 <= j < |ms| && ms[j] == ds[n];
      SameArrived(c0, ms, ds, j);
      OneArrival(env, c0, ms, Arrivals(env, c0, ds[..n]), Progress(|ms|, before, 0), before, j);
    }
  }

  lemma SameArrived(c0: Ctx, ms: seq<bytes>, ds: seq<bytes>, j: nat)
    requires Start(c0, ms) && ds != [] && j < |ms| && ms[j] == ds[|ds| - 1]
    ensures ArrivedBy(ms, ds) == ArrivedBy(ms, ds[..|ds| - 1]) + {j}
  {
    hide MsgSeq;
    assert ds == ds[..|ds| - 1] + [ds[|ds| - 1]];
    assert forall i :: 0 <= i < |ms| && ms[i] == ms[j] ==> MsgSeq(ms[i]) == MsgSeq(ms[j]);
  }

  lemma {:induction false} AllArrived(n: nat, arrived: set<nat>, k: nat)
    requires k <= n && forall j :: 0 <= j < n ==> j in arrived
    ensures Progress(n, arrived, k) == n
    decreases n - k
  {
    if k < n {
      AllArrived(n, arrived, k + 1);
    }
  }

  lemma SomethingHeld(q: seq<bytes>, ms: seq<bytes>, arrived: set<nat>)
    requires q != []
    ensures !HoldsFrom(q, ms, |ms|, arrived)
  {
    assert q[0] in q;
  }

  /**
   * Messages arriving in any order, any of them any number of times, leave the
   * session exactly as the same messages handed over one by one in the order
   * of their numbers.
   */
  lemma OrderIsIrrelevant(env: Env, c0: Ctx, ms: seq<bytes>, ds: seq<bytes>)
    requires Start(c0, ms) && Smooth(env, c0, ms)
    requires forall d :: d in ds <==> d in ms
    ensures Arrivals(env, c0, ds) == InOrder(env, c0, ms, |ms|)
  {
    var arrived := ArrivedBy(ms, ds);
    forall j | 0 <= j < |ms| ensures j in arrived {
      assert ms[j] in ms;
    }
    AllArrived(|ms|, arrived, 0);
    ArrivalsReach(env, c0, ms, ds);
    InOrderCounts(env, c0, ms, |ms|);
    hide HandleMessage, Smooth, Drain, MsgSeq, Handled, Arrivals, InOrder;
    var c, d := Arrivals(env, c0, ds), InOrder(env, c0, ms, |ms|);
    if HasHs(c) {
      assert HasHs(d);
      if Hs(c).queue != [] {
        SomethingHeld(Hs(c).queue, ms, arrived);
      }
    }
  }

  /** If none of the messages can begin a handshake, this holds of whatever arrives after its end as well. */
  lemma OrderIsIrrelevantThroughout(env: Env, c0: Ctx, ms: seq<bytes>, ds: seq<bytes>)
    requires Start(c0, ms) && Smooth(env, c0, ms)
    requires (forall d :: d in ds <==> d in ms) && forall m :: m in ms ==> !Begins(m)
    ensures AllArrivals(env, c0, ds) == InOrder(env, c0, ms, |ms|)
  {
    hide Smooth, Start, Begins, InOrder;
    OrderIsIrrelevant(env, c0, ms, ds);
    NothingMore(env, c0, ds);
  }
}
