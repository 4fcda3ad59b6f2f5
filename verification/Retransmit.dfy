/**
 * The queue of sent flights and their retransmission (dtls_send_multi,
 * dtls_retransmit, dtls_check_retransmit and dtls_stop_retransmission in
 * dtls.c; netq.c).
 */
module Retransmit {
  import opened Bytes
  import Record

  const FIRST_TIMEOUT := 5000        // DTLS_FIRST_RETRANSMIT_SECONDS * CLOCK_SECOND
  const MAX_RETRANSMIT := 4
  const WHOLE_SPAN := 155000         // (1 + 2 + 4 + 8 + 16) * FIRST_TIMEOUT

  /** What is kept of a sent record: its type, what is read back from its header, and its payload. */
  datatype Kept = Kept(ctype: byte, header: Record.Node, data: bytes)

  /** netq_t; serial and queued are for the statements only. */
  datatype Node = Node(serial: nat, queued: nat, t: nat, count: nat, timeout: nat, session: nat, kept: Kept)

  /** What happened; Resent is a call of dtls_prepare_record with what was kept, and of write. */
  datatype Entry = Queued(serial: nat, at: nat, kept: Kept) | Resent(serial: nat, at: nat, kept: Kept)
                 | Dropped(serial: nat, at: nat) | Stopped(serial: nat)

  datatype Sender = Sender(queue: seq<Node>, log: seq<Entry>, next: nat)

  function Fresh(): Sender { Sender([], [], 0) }

  // ----- the queue -----

  ghost predicate Sorted(q: seq<Node>) { forall i, j :: 0 <= i < j < |q| ==> q[i].t <= q[j].t }

  /** netq_insert_node: behind every node that is not later. */
  function Place(q: seq<Node>, t: nat): (i: nat)
    ensures i <= |q| && (forall j :: 0 <= j < i ==> q[j].t <= t) && (i < |q| ==> q[i].t > t)
  {
    if q == [] || q[0].t > t then 0 else Place(q[1..], t) + 1
  }

  function Insert(q: seq<Node>, n: Node): (r: seq<Node>)
    ensures |r| == |q| + 1
  {
    q[..Place(q, n.t)] + [n] + q[Place(q, n.t)..]
  }

  lemma InsertSorted(q: seq<Node>, n: Node)
    requires Sorted(q)
    ensures Sorted(Insert(q, n))
  {
  }

  function DueCount(q: seq<Node>, now: nat): nat
  {
    if q == [] then 0 else (if q[0].t <= now then 1 else 0) + DueCount(q[1..], now)
  }

  lemma {:induction false} DueJoin(a: seq<Node>, b: seq<Node>, now: nat)
    ensures DueCount(a + b, now) == DueCount(a, now) + DueCount(b, now)
    decreases |a|
  {
    if a == [] {
      assert a + b == b;
    } else {
      DueJoin(a[1..], b, now);
      assert (a + b)[1..] == a[1..] + b;
    }
  }

  /** A node put off to later is not due now. */
  lemma InsertLater(q: seq<Node>, n: Node, now: nat)
    requires n.t > now
    ensures DueCount(Insert(q, n), now) == DueCount(q, now)
  {
    var i := Place(q, n.t);
    DueJoin(q[..i] + [n], q[i..], now);
    DueJoin(q[..i], [n], now);
    DueJoin(q[..i], q[i..], now);
    assert q[..i] + q[i..] == q;
    assert [n][1..] == [];
  }

  // ----- the operations -----

  function Note(s: Sender, e: Entry): Sender { s.(log := s.log + [e]) }

  /** dtls_send_multi keeps a copy of a flight's record; sent is the datagram it was. */
  function Enqueue(s: Sender, session: nat, ctype: byte, sent: bytes, data: bytes, now: nat): Sender
    requires |sent| >= Record.RH_LENGTH
  {
    var kept := Kept(ctype, Record.KeptNode(sent), data);
    var n := Node(s.next, now, now + FIRST_TIMEOUT, 0, FIRST_TIMEOUT, session, kept);
    Sender(Insert(s.queue, n), s.log + [Queued(s.next, now, kept)], s.next + 1)
  }

  function PutOff(n: Node, ticks: nat): Node
  {
    n.(count := n.count + 1, t := ticks + n.timeout * Pow2(n.count + 1))
  }

  /** dtls_retransmit of a node that was taken out; ticks is the clock there, now that of the caller. */
  function Handle(s: Sender, n: Node, now: nat, ticks: nat): Sender
  {
    if n.count < MAX_RETRANSMIT then Sender(Insert(s.queue, PutOff(n, ticks)), s.log + [Resent(n.serial, ticks, n.kept)], s.next)
    else Note(s, Dropped(n.serial, now))
  }

  function Popped(s: Sender): Sender
    requires s.queue != []
  {
    s.(queue := s.queue[1..])
  }

  /** The clock as it is read while nodes are handled: never behind now. */
  type Clock = nat -> nat

  ghost predicate NotBehind(clock: Clock, now: nat) { forall k :: clock(k) >= now }

  ghost predicate Armed(s: Sender) { forall i :: 0 <= i < |s.queue| ==> s.queue[i].timeout == FIRST_TIMEOUT }

  lemma PutOffLater(n: Node, now: nat, ticks: nat)
    requires n.timeout == FIRST_TIMEOUT && ticks >= now
    ensures PutOff(n, ticks).t > now
  {
    assert Pow2(n.count + 1) > 0;
  }

  lemma HandleFewer(s: Sender, now: nat, ticks: nat)
    requires s.queue != [] && s.queue[0].t <= now && Armed(s) && ticks >= now
    ensures Armed(Handle(Popped(s), s.queue[0], now, ticks))
    ensures DueCount(Handle(Popped(s), s.queue[0], now, ticks).queue, now) == DueCount(s.queue, now) - 1
  {
    var n, q := s.queue[0], s.queue[1..];
    if n.count < MAX_RETRANSMIT {
      PutOffLater(n, now, ticks);
      InsertLater(q, PutOff(n, ticks), now);
    }
  }

  /** dtls_check_retransmit; k counts the readings of the clock. */
  ghost function Check(s: Sender, now: nat, clock: Clock, k: nat): Sender
    requires Armed(s) && NotBehind(clock, now)
    decreases DueCount(s.queue, now)
  {
    if s.queue == [] || s.queue[0].t > now then s
    else
      HandleFewer(s, now, clock(k));
      Check(Handle(Popped(s), s.queue[0], now, clock(k)), now, clock, k + 1)
  }

  /** What it reports: the time of the first node that is left, or 0. */
  function NextTime(s: Sender): nat { if s.queue == [] then 0 else s.queue[0].t }

  /** dtls_stop_retransmission */
  function Stop(s: Sender, session: nat, i: nat): Sender
    decreases |s.queue| - i
  {
    if i >= |s.queue| then s
    else if s.queue[i].session == session then
      Stop(Sender(s.queue[..i] + s.queue[i + 1..], s.log + [Stopped(s.queue[i].serial)], s.next), session, i)
    else Stop(s, session, i + 1)
  }

  // ----- what stopping leaves -----

  /** The nodes of all other sessions, in their order. */
  function Others(q: seq<Node>, session: nat): seq<Node>
  {
    if q == [] then []
    else if q[0].session != session then [q[0]] + Others(q[1..], session) else Others(q[1..], session)
  }

  lemma {:induction false} OthersAre(q: seq<Node>, session: nat)
    ensures forall n :: n in Others(q, session) <==> n in q && n.session != session
    decreases |q|
  {
    if q != [] {
      OthersAre(q[1..], session);
      assert q == [q[0]] + q[1..];
    }
  }

  /** The entries for the nodes of this session, in their order. */
  function StopsOf(q: seq<Node>, session: nat): seq<Entry>
  {
    if q == [] then []
    else if q[0].session == session then [Stopped(q[0].serial)] + StopsOf(q[1..], session) else StopsOf(q[1..], session)
  }

  lemma {:induction false} StopLeaves(s: Sender, session: nat, i: nat)
    requires i <= |s.queue|
    ensures Stop(s, session, i)
         == Sender(s.queue[..i] + Others(s.queue[i..], session), s.log + StopsOf(s.queue[i..], session), s.next)
    decreases |s.queue| - i
  {
    if i == |s.queue| {
      assert s.queue[..i] + [] == s.queue && s.log + [] == s.log;
    } else {
      var n, rest := s.queue[i], s.queue[i + 1..];
      assert s.queue[i..] == [n] + rest && s.queue[i..][1..] == rest;
      if n.session == session {
        var s1 := Sender(s.queue[..i] + rest, s.log + [Stopped(n.serial)], s.next);
        StopLeaves(s1, session, i);
        assert s1.queue[..i] == s.queue[..i] && s1.queue[i..] == rest;
        assert s1.log + StopsOf(rest, session) == s.log + ([Stopped(n.serial)] + StopsOf(rest, session));
      } else {
        StopLeaves(s, session, i + 1);
        assert s.queue[..i + 1] == s.queue[..i] + [n];
        assert s.queue[..i] + [n] + Others(rest, session) == s.queue[..i] + ([n] + Others(rest, session));
      }
    }
  }

  /**
   * Stopping a session takes its nodes out, with one entry for each, and leaves
   * exactly those of all other sessions, in their order.
   */
  lemma StopsExactly(s: Sender, session: nat)
    ensures var r := Stop(s, session, 0);
            && r.queue == Others(s.queue, session) && r.log == s.log + StopsOf(s.queue, session)
            && (forall n :: n in r.queue <==> n in s.queue && n.session != session)
            && |r.log| - |s.log| == |s.queue| - |r.queue|
  {
    StopLeaves(s, session, 0);
    OthersAre(s.queue, session);
    StopsCount(s.queue, session);
    assert s.queue[0..] == s.queue && s.queue[..0] == [];
    assert [] + Others(s.queue, session) == Others(s.queue, session);
  }

  lemma {:induction false} StopsCount(q: seq<Node>, session: nat)
    ensures |StopsOf(q, session)| + |Others(q, session)| == |q|
    decreases |q|
  {
    if q != [] {
      StopsCount(q[1..], session);
    }
  }

  // ----- one call of the timer -----

  lemma {:induction false} DueFirst(q: seq<Node>, now: nat)
    requires Sorted(q)
    ensures DueCount(q, now) <= |q|
    ensures forall i :: 0 <= i < |q| ==> (q[i].t <= now <==> i < DueCount(q, now))
    decreases |q|
  {
    if q != [] {
      DueFirst(q[1..], now);
      assert forall i :: 0 < i < |q| ==> q[i] == q[1..][i - 1];
    }
  }

  predicate About(e: Entry, n: Node, now: nat)
  {
    if n.count < MAX_RETRANSMIT then e.Resent? && e.serial == n.serial && e.kept == n.kept && e.at >= now
    else e == Dropped(n.serial, now)
  }

  /** What the timer adds to the log: one entry for each node that was due, in their order. */
  ghost predicate OnceEach(before: Sender, after: Sender, now: nat)
  {
    var d, l := DueCount(before.queue, now), |before.log|;
    && d <= |before.queue| && |after.log| == l + d && after.log[..l] == before.log
    && forall i :: 0 <= i < d ==> About(after.log[l + i], before.queue[i], now)
  }

  /** A node put off stands behind all that are due. */
  lemma DueStay(q: seq<Node>, n: Node, now: nat)
    requires Sorted(q) && n.t > now
    ensures var d := DueCount(q, now); d <= |q| && Insert(q, n)[..d] == q[..d]
  {
    DueFirst(q, now);
  }

  /**
   * The timer ends; each node that was due when it started is handled exactly
   * once and no other is; afterwards the queue is sorted, nothing in it is due,
   * and the time reported is the least there is.
   */
  lemma {:induction false} CheckHandlesDue(s: Sender, now: nat, clock: Clock, k: nat)
    requires Sorted(s.queue) && Armed(s) && NotBehind(clock, now)
    ensures var r := Check(s, now, clock, k);
            && OnceEach(s, r, now) && Sorted(r.queue) && Armed(r) && DueCount(r.queue, now) == 0
            && (if r.queue == [] then NextTime(r) == 0 else forall i :: 0 <= i < |r.queue| ==> NextTime(r) <= r.queue[i].t)
    decreases DueCount(s.queue, now)
  {
    DueFirst(s.queue, now);
    hide DueCount, Insert, Handle, PutOff;
    if s.queue != [] && s.queue[0].t <= now {
      var s1 := Handle(Popped(s), s.queue[0], now, clock(k));
      HandleFewer(s, now, clock(k));
      OneHandled(s, now, clock(k));
      hide About, OnceEach;
      CheckHandlesDue(s1, now, clock, k + 1);
      OnceStep(s, s1, Check(s1, now, clock, k + 1), now);
    }
  }

  /** One round of the loop. */
  lemma OneHandled(s: Sender, now: nat, ticks: nat)
    requires Sorted(s.queue) && Armed(s) && s.queue != [] && s.queue[0].t <= now <= ticks
    ensures var s1 := Handle(Popped(s), s.queue[0], now, ticks);
            && Sorted(s1.queue) && DueCount(s.queue, now) <= |s.queue|
            && DueCount(s1.queue, now) == DueCount(s.queue, now) - 1
            && |s1.log| == |s.log| + 1 && s1.log[..|s.log|] == s.log && About(s1.log[|s.log|], s.queue[0], now)
            && var d := DueCount(s1.queue, now); d <= |s1.queue| && s1.queue[..d] == s.queue[1..][..d]
  {
    var n, q := s.queue[0], s.queue[1..];
    DueFirst(s.queue, now);
    HandleFewer(s, now, ticks);
    DueTail(s.queue, now);
    hide DueCount, Insert;
    if n.count < MAX_RETRANSMIT {
      InsertSorted(q, PutOff(n, ticks));
      PutOffLater(n, now, ticks);
      DueStay(q, PutOff(n, ticks), now);
    }
  }

  // ----- which nodes are left -----

  lemma Inserted(q: seq<Node>, n: Node)
    ensures forall m :: m in Insert(q, n) <==> m in q || m == n
  {
    var i := Place(q, n.t);
    assert q == q[..i] + q[i..];
  }

  /** n is m, put off at some reading of the clock. */
  ghost predicate PutOffFrom(n: Node, m: Node, clock: Clock)
  {
    m.count < MAX_RETRANSMIT && exists j: nat :: n == PutOff(m, clock(j))
  }

  /** What is in the queue afterwards comes from before: a node that was not due, or one that was, put off. */
  ghost predicate ComesFrom(n: Node, q: seq<Node>, now: nat, clock: Clock)
  {
    (n in q && n.t > now) || exists m :: m in q && m.t <= now && PutOffFrom(n, m, clock)
  }

  /** And all of these are there. */
  ghost predicate Stays(m: Node, q: seq<Node>, now: nat, clock: Clock)
  {
    if m.t > now then m in q else m.count < MAX_RETRANSMIT ==> exists n :: n in q && PutOffFrom(n, m, clock)
  }

  /** A call of the timer neither loses a node nor makes one up. */
  lemma {:induction false} CheckLeaves(s: Sender, now: nat, clock: Clock, k: nat)
    requires Sorted(s.queue) && Armed(s) && NotBehind(clock, now)
    ensures var q := Check(s, now, clock, k).queue;
            && (forall n :: n in q ==> ComesFrom(n, s.queue, now, clock))
            && (forall m :: m in s.queue ==> Stays(m, q, now, clock))
    decreases DueCount(s.queue, now)
  {
    DueFirst(s.queue, now);
    if s.queue == [] || s.queue[0].t > now {
      assert forall n :: n in s.queue ==> n.t > now;
    } else {
      var s1 := Handle(Popped(s), s.queue[0], now, clock(k));
      HandleFewer(s, now, clock(k));
      OneHandled(s, now, clock(k));
      CheckLeaves(s1, now, clock, k + 1);
      HandledLeaves(s, now, clock, k);
      hide DueCount, Handle, ComesFrom, Stays, Sorted;
      var q := Check(s1, now, clock, k + 1).queue;
      forall n | n in q ensures ComesFrom(n, s.queue, now, clock) {
        ComesFromHead(n, s, now, clock, k);
      }
      forall m | m in s.queue ensures Stays(m, q, now, clock) {
        StaysBehindHead(m, s, q, now, clock, k);
      }
    }
  }

  /** The first node alone. */
  lemma HandledLeaves(s: Sender, now: nat, clock: Clock, k: nat)
    requires s.queue != [] && s.queue[0].t <= now && Armed(s) && NotBehind(clock, now)
    ensures var n, q1 := s.queue[0], Handle(Popped(s), s.queue[0], now, clock(k)).queue;
            && (forall m :: m in q1 <==> m in s.queue[1..] || (n.count < MAX_RETRANSMIT && m == PutOff(n, clock(k))))
            && PutOff(n, clock(k)).t > now
  {
    Inserted(s.queue[1..], PutOff(s.queue[0], clock(k)));
    PutOffLater(s.queue[0], now, clock(k));
    hide Insert, PutOff;
  }

  lemma ComesFromHead(n: Node, s: Sender, now: nat, clock: Clock, k: nat)
    requires s.queue != [] && s.queue[0].t <= now && Armed(s) && NotBehind(clock, now)
    requires ComesFrom(n, Handle(Popped(s), s.queue[0], now, clock(k)).queue, now, clock)
    ensures ComesFrom(n, s.queue, now, clock)
  {
    HandledLeaves(s, now, clock, k);
    hide Handle, PutOff;
    assert s.queue[0] in s.queue && forall m :: m in s.queue[1..] ==> m in s.queue;
    assert s.queue[0].count < MAX_RETRANSMIT ==> PutOffFrom(PutOff(s.queue[0], clock(k)), s.queue[0], clock);
  }

  lemma StaysBehindHead(m: Node, s: Sender, q: seq<Node>, now: nat, clock: Clock, k: nat)
    requires s.queue != [] && s.queue[0].t <= now && Armed(s) && NotBehind(clock, now) && m in s.queue
    requires forall n :: n in Handle(Popped(s), s.queue[0], now, clock(k)).queue ==> Stays(n, q, now, clock)
    ensures Stays(m, q, now, clock)
  {
    HandledLeaves(s, now, clock, k);
    hide Handle, PutOff;
    if m == s.queue[0] {
      if m.count < MAX_RETRANSMIT {
        assert PutOffFrom(PutOff(m, clock(k)), m, clock);
        assert Stays(PutOff(m, clock(k)), q, now, clock);
      }
    } else {
      assert s.queue == [s.queue[0]] + s.queue[1..];
      assert m in s.queue[1..];
    }
  }

  lemma DueTail(q: seq<Node>, now: nat)
    requires q != [] && q[0].t <= now
    ensures DueCount(q, now) == DueCount(q[1..], now) + 1
  {
  }

  lemma OnceStep(s: Sender, s1: Sender, r: Sender, now: nat)
    requires s.queue != [] && DueCount(s1.queue, now) == DueCount(s.queue, now) - 1 && OnceEach(s1, r, now)
    requires DueCount(s.queue, now) <= |s.queue|
    requires |s1.log| == |s.log| + 1 && s1.log[..|s.log|] == s.log && About(s1.log[|s.log|], s.queue[0], now)
    requires var d := DueCount(s1.queue, now); d <= |s1.queue| && s1.queue[..d] == s.queue[1..][..d]
    ensures OnceEach(s, r, now)
  {
    var d, l := DueCount(s.queue, now), |s.log|;
    assert r.log[..l] == r.log[..l + 1][..l];
    forall i | 0 <= i < d ensures About(r.log[l + i], s.queue[i], now) {
      if i == 0 {
        assert r.log[l] == r.log[..l + 1][l] == s1.log[l];
      } else {
        assert s1.queue[..d - 1][i - 1] == s.queue[1..][..d - 1][i - 1];
        assert About(r.log[l + 1 + (i - 1)], s1.queue[i - 1], now);
      }
    }
  }

  // ----- whole runs -----

  function ResentCount(log: seq<Entry>, serial: nat): nat
  {
    if log == [] then 0
    else ResentCount(log[..|log| - 1], serial) + if log[|log| - 1].Resent? && log[|log| - 1].serial == serial then 1 else 0
  }

  lemma CountNext(log: seq<Entry>, e: Entry, serial: nat)
    ensures ResentCount(log + [e], serial) == ResentCount(log, serial) + if e.Resent? && e.serial == serial then 1 else 0
  {
    assert (log + [e])[..|log|] == log;
  }

  /** When the record was sent last. */
  function LastSent(log: seq<Entry>, serial: nat): nat
  {
    if log == [] then 0
    else
      var e := log[|log| - 1];
      if (e.Queued? || e.Resent?) && e.serial == serial then e.at else LastSent(log[..|log| - 1], serial)
  }

  lemma LastSentNext(log: seq<Entry>, e: Entry, serial: nat)
    ensures LastSent(log + [e], serial)
         == if (e.Queued? || e.Resent?) && e.serial == serial then e.at else LastSent(log, serial)
  {
    assert (log + [e])[..|log|] == log;
  }

  /** The node's number of retransmissions, when it is due, and how long it has been put off by now. */
  ghost predicate NodeInv(n: Node, log: seq<Entry>, next: nat)
  {
    && n.serial < next && n.timeout == FIRST_TIMEOUT && n.count <= MAX_RETRANSMIT
    && ResentCount(log, n.serial) == n.count && Queued(n.serial, n.queued, n.kept) in log
    && n.t == LastSent(log, n.serial) + FIRST_TIMEOUT * Pow2(n.count)
    && n.t >= n.queued + FIRST_TIMEOUT * (Pow2(n.count + 1) - 1)
  }

  /** A node is given up after MAX_RETRANSMIT retransmissions, and not before WHOLE_SPAN has passed. */
  ghost predicate GivenUpLate(log: seq<Entry>, j: nat)
    requires j < |log| && log[j].Dropped?
  {
    && ResentCount(log[..j], log[j].serial) == MAX_RETRANSMIT
    && exists t: nat, kept :: t + WHOLE_SPAN <= log[j].at && Queued(log[j].serial, t, kept) in log[..j]
  }

  /** What is sent again is what was kept when the record was queued. */
  ghost predicate SentAsKept(log: seq<Entry>, j: nat)
    requires j < |log| && log[j].Resent?
  {
    exists t: nat :: Queued(log[j].serial, t, log[j].kept) in log[..j]
  }

  ghost predicate EntryOk(log: seq<Entry>, j: nat)
    requires j < |log|
  {
    (log[j].Dropped? ==> GivenUpLate(log, j)) && (log[j].Resent? ==> SentAsKept(log, j))
  }

  ghost predicate Inv(s: Sender)
  {
    && Sorted(s.queue)
    && (forall i :: 0 <= i < |s.queue| ==> NodeInv(s.queue[i], s.log, s.next))
    && (forall i, j :: 0 <= i < j < |s.queue| ==> s.queue[i].serial != s.queue[j].serial)
    && (forall j :: 0 <= j < |s.log| ==> EntryOk(s.log, j))
    && (forall i :: 0 <= i < |s.log| ==> s.log[i].serial < s.next)
    && (forall serial :: ResentCount(s.log, serial) <= MAX_RETRANSMIT)
  }

  /** An entry about another node changes nothing for this one. */
  lemma OtherNode(n: Node, log: seq<Entry>, e: Entry, next: nat, next': nat)
    requires NodeInv(n, log, next) && e.serial != n.serial && next <= next'
    ensures NodeInv(n, log + [e], next')
  {
    CountNext(log, e, n.serial);
    LastSentNext(log, e, n.serial);
  }

  lemma LogGrows(log: seq<Entry>, e: Entry)
    requires forall j :: 0 <= j < |log| ==> EntryOk(log, j)
    requires EntryOk(log + [e], |log|)
    ensures forall j :: 0 <= j < |log + [e]| ==> EntryOk(log + [e], j)
  {
    var l := log + [e];
    forall j | 0 <= j < |l| ensures EntryOk(l, j) {
      if j < |log| {
        assert EntryOk(log, j) && l[..j] == log[..j] && l[j] == log[j];
      }
    }
  }

  lemma OtherEntryOk(log: seq<Entry>, e: Entry)
    requires !e.Dropped? && !e.Resent?
    ensures EntryOk(log + [e], |log|)
  {
  }

  lemma CountsStay(log: seq<Entry>, e: Entry)
    requires forall serial :: ResentCount(log, serial) <= MAX_RETRANSMIT
    requires e.Resent? ==> ResentCount(log, e.serial) < MAX_RETRANSMIT
    ensures forall serial :: ResentCount(log + [e], serial) <= MAX_RETRANSMIT
  {
    forall serial ensures ResentCount(log + [e], serial) <= MAX_RETRANSMIT {
      CountNext(log, e, serial);
    }
  }

  lemma WithoutAt(q: seq<Node>, i: nat)
    requires i < |q|
    ensures forall k :: 0 <= k < |q| - 1 ==> Without(q, i)[k] == q[if k < i then k else k + 1]
  {
  }

  lemma RemoveKeeps(s: Sender, i: nat, e: Entry)
    requires Inv(s) && i < |s.queue| && e.serial == s.queue[i].serial && (e.Stopped? || e.Dropped?)
    requires e.Dropped? ==> s.queue[i].count == MAX_RETRANSMIT && s.queue[i].t <= e.at
    ensures Inv(Sender(Without(s.queue, i), s.log + [e], s.next))
  {
    var q := Without(s.queue, i);
    WithoutAt(s.queue, i);
    WithoutSorted(s.queue, i);
    hide NodeInv, EntryOk, ResentCount, Sorted, Without;
    if e.Dropped? {
      DropIsLate(s.queue[i], s.log, s.next, e);
    } else {
      OtherEntryOk(s.log, e);
    }
    LogGrows(s.log, e);
    CountsStay(s.log, e);
    forall k | 0 <= k < |q| ensures NodeInv(q[k], s.log + [e], s.next) {
      OtherNode(q[k], s.log, e, s.next, s.next);
    }
  }

  lemma WithoutSorted(q: seq<Node>, i: nat)
    requires Sorted(q) && i < |q| && forall j, k :: 0 <= j < k < |q| ==> q[j].serial != q[k].serial
    ensures Sorted(Without(q, i))
    ensures var r := Without(q, i);
            && (forall k :: 0 <= k < |r| ==> r[k].serial != q[i].serial)
            && forall j, k :: 0 <= j < k < |r| ==> r[j].serial != r[k].serial
  {
    WithoutAt(q, i);
  }

  lemma DropIsLate(n: Node, log: seq<Entry>, next: nat, e: Entry)
    requires NodeInv(n, log, next) && e.Dropped? && e.serial == n.serial && n.count == MAX_RETRANSMIT && n.t <= e.at
    ensures EntryOk(log + [e], |log|)
  {
    assert (log + [e])[..|log|] == log;
    assert Pow2(5) == 32;
    assert n.queued + WHOLE_SPAN <= e.at;
  }

  lemma InsertKeeps(q: seq<Node>, n: Node, log: seq<Entry>, next: nat)
    requires Sorted(q) && NodeInv(n, log, next)
    requires forall i :: 0 <= i < |q| ==> NodeInv(q[i], log, next) && q[i].serial != n.serial
    requires forall i, j :: 0 <= i < j < |q| ==> q[i].serial != q[j].serial
    ensures var r := Insert(q, n);
            && Sorted(r) && (forall i :: 0 <= i < |r| ==> NodeInv(r[i], log, next))
            && forall i, j :: 0 <= i < j < |r| ==> r[i].serial != r[j].serial
  {
    hide NodeInv;
    InsertSorted(q, n);
    var p, r := Place(q, n.t), Insert(q, n);
    assert forall k :: 0 <= k < |r| ==> r[k] == if k < p then q[k] else if k == p then n else q[k - 1];
  }

  lemma PutOffInv(n: Node, log: seq<Entry>, next: nat, now: nat, ticks: nat)
    requires NodeInv(n, log, next) && n.count < MAX_RETRANSMIT && n.t <= now <= ticks
    ensures NodeInv(PutOff(n, ticks), log + [Resent(n.serial, ticks, n.kept)], next)
    ensures EntryOk(log + [Resent(n.serial, ticks, n.kept)], |log|)
  {
    var e := Resent(n.serial, ticks, n.kept);
    LastSentNext(log, e, n.serial);
    assert (log + [e])[..|log|] == log;
    CountNext(log, e, n.serial);
    var p := Pow2(n.count + 1);
    assert Pow2(n.count + 2) == 2 * p;
  }

  lemma HandleKeeps(s: Sender, now: nat, ticks: nat)
    requires Inv(s) && s.queue != [] && s.queue[0].t <= now <= ticks
    ensures Inv(Handle(Popped(s), s.queue[0], now, ticks))
  {
    assert Without(s.queue, 0) == s.queue[1..];
    if s.queue[0].count < MAX_RETRANSMIT {
      ResendKeeps(s, now, ticks);
    } else {
      CountIs(s.queue[0], s.log, s.next);
      hide Inv;
      RemoveKeeps(s, 0, Dropped(s.queue[0].serial, now));
    }
  }

  lemma CountIs(n: Node, log: seq<Entry>, next: nat)
    requires NodeInv(n, log, next)
    ensures n.count <= MAX_RETRANSMIT && ResentCount(log, n.serial) == n.count && n.serial < next
  {
  }

  lemma ResendKeeps(s: Sender, now: nat, ticks: nat)
    requires Inv(s) && s.queue != [] && s.queue[0].t <= now <= ticks && s.queue[0].count < MAX_RETRANSMIT
    ensures Inv(Sender(Insert(s.queue[1..], PutOff(s.queue[0], ticks)), s.log + [Resent(s.queue[0].serial, ticks, s.queue[0].kept)], s.next))
  {
    hide NodeInv, EntryOk, ResentCount, Insert, PutOff, LastSent;
    var n, q, e := s.queue[0], s.queue[1..], Resent(s.queue[0].serial, ticks, s.queue[0].kept);
    CountIs(n, s.log, s.next);
    PutOffInv(n, s.log, s.next, now, ticks);
    LogGrows(s.log, e);
    CountsStay(s.log, e);
    PutOffSame(n, ticks);
    forall k | 0 <= k < |q| ensures NodeInv(q[k], s.log + [e], s.next) && q[k].serial != n.serial {
      OtherNode(q[k], s.log, e, s.next, s.next);
    }
    InsertKeeps(q, PutOff(n, ticks), s.log + [e], s.next);
  }

  lemma PutOffSame(n: Node, ticks: nat)
    ensures PutOff(n, ticks).serial == n.serial
  {
  }

  lemma InvArmed(s: Sender)
    requires Inv(s)
    ensures Armed(s)
  {
  }

  lemma {:induction false} CheckKeeps(s: Sender, now: nat, clock: Clock, k: nat)
    requires Inv(s) && Armed(s) && NotBehind(clock, now)
    ensures Inv(Check(s, now, clock, k))
    decreases DueCount(s.queue, now)
  {
    hide Inv;
    if s.queue != [] && s.queue[0].t <= now {
      HandleFewer(s, now, clock(k));
      HandleKeeps(s, now, clock(k));
      CheckKeeps(Handle(Popped(s), s.queue[0], now, clock(k)), now, clock, k + 1);
    }
  }

  lemma {:induction false} StopKeeps(s: Sender, session: nat, i: nat)
    requires Inv(s)
    ensures Inv(Stop(s, session, i))
    decreases |s.queue| - i
  {
    hide Inv;
    if i < |s.queue| {
      if s.queue[i].session == session {
        RemoveKeeps(s, i, Stopped(s.queue[i].serial));
        StopKeeps(Sender(Without(s.queue, i), s.log + [Stopped(s.queue[i].serial)], s.next), session, i);
      } else {
        StopKeeps(s, session, i + 1);
      }
    }
  }

  lemma {:induction false} NoneResent(log: seq<Entry>, serial: nat)
    requires forall i :: 0 <= i < |log| ==> log[i].serial < serial
    ensures ResentCount(log, serial) == 0
    decreases |log|
  {
    if log != [] {
      NoneResent(log[..|log| - 1], serial);
    }
  }

  lemma EnqueueKeeps(s: Sender, session: nat, ctype: byte, sent: bytes, data: bytes, now: nat)
    requires Inv(s) && |sent| >= Record.RH_LENGTH
    ensures Inv(Enqueue(s, session, ctype, sent, data, now))
  {
    hide Record.KeptNode;
    var kept := Kept(ctype, Record.KeptNode(sent), data);
    var n, e := Node(s.next, now, now + FIRST_TIMEOUT, 0, FIRST_TIMEOUT, session, kept), Queued(s.next, now, kept);
    assert Enqueue(s, session, ctype, sent, data, now) == Sender(Insert(s.queue, n), s.log + [e], s.next + 1);
    hide Enqueue, Insert;
    NoneResent(s.log, s.next);
    CountNext(s.log, e, s.next);
    LastSentNext(s.log, e, s.next);
    OtherEntryOk(s.log, e);
    LogGrows(s.log, e);
    CountsStay(s.log, e);
    assert Pow2(0) == 1 && Pow2(1) == 2;
    assert (s.log + [e])[|s.log|] == e;
    assert NodeInv(n, s.log + [e], s.next + 1);
    forall k | 0 <= k < |s.queue| ensures NodeInv(s.queue[k], s.log + [e], s.next + 1) && s.queue[k].serial < s.next {
      OtherNode(s.queue[k], s.log, e, s.next, s.next + 1);
    }
    hide NodeInv, EntryOk, ResentCount;
    InsertKeeps(s.queue, n, s.log + [e], s.next + 1);
  }

  datatype Op = Sends(session: nat, ctype: byte, sent: bytes, data: bytes) | Ticks(clock: Clock) | Stops(session: nat)

  datatype Step = Step(op: Op, now: nat)

  /** While nodes are handled the clock does not go back; what was sent has a header. */
  ghost predicate ValidStep(step: Step)
  {
    && (step.op.Ticks? ==> NotBehind(step.op.clock, step.now))
    && (step.op.Sends? ==> |step.op.sent| >= Record.RH_LENGTH)
  }

  ghost function Do(s: Sender, step: Step): Sender
    requires ValidStep(step)
  {
    match step.op
    case Sends(session, ctype, sent, data) => Enqueue(s, session, ctype, sent, data, step.now)
    case Ticks(clock) => if Armed(s) then Check(s, step.now, clock, 0) else s
    case Stops(session) => Stop(s, session, 0)
  }

  ghost function Run(steps: seq<Step>): Sender
    requires forall i :: 0 <= i < |steps| ==> ValidStep(steps[i])
  {
    if steps == [] then Fresh() else Do(Run(steps[..|steps| - 1]), steps[|steps| - 1])
  }

  lemma FreshKeeps()
    ensures Inv(Fresh()) && Armed(Fresh())
  {
  }

  lemma {:induction false} RunKeeps(steps: seq<Step>)
    requires forall i :: 0 <= i < |steps| ==> ValidStep(steps[i])
    ensures Inv(Run(steps)) && Armed(Run(steps))
    decreases |steps|
  {
    hide Check, Stop, Enqueue, Inv, Armed;
    if steps == [] {
      FreshKeeps();
    } else {
      var n := |steps| - 1;
      RunKeeps(steps[..n]);
      var s := Run(steps[..n]);
      match steps[n].op {
        case Sends(session, ctype, sent, data) => EnqueueKeeps(s, session, ctype, sent, data, steps[n].now);
        case Ticks(clock) => CheckKeeps(s, steps[n].now, clock, 0);
        case Stops(session) => StopKeeps(s, session, 0);
      }
      InvArmed(Run(steps));
    }
  }

  /**
   * In every run the queue is sorted by time, no record is sent again more than
   * four times, always as what was kept of it, and a record that was not stopped
   * is given up only after four retransmissions and at least 155000 ticks after
   * it was queued. What is in the queue is due exactly 5000 ticks, doubled with
   * each retransmission, after it was sent last.
   */
  lemma RetransmissionsInEveryRun(steps: seq<Step>)
    requires forall i :: 0 <= i < |steps| ==> ValidStep(steps[i])
    ensures var s := Run(steps);
            && Sorted(s.queue)
            && (forall serial :: ResentCount(s.log, serial) <= MAX_RETRANSMIT)
            && (forall j :: 0 <= j < |s.log| && s.log[j].Resent? ==> SentAsKept(s.log, j))
            && (forall j :: 0 <= j < |s.log| && s.log[j].Dropped? ==> GivenUpLate(s.log, j))
            && forall i :: 0 <= i < |s.queue| ==>
                 var n := s.queue[i]; n.t == LastSent(s.log, n.serial) + FIRST_TIMEOUT * Pow2(ResentCount(s.log, n.serial))
  {
    RunKeeps(steps);
    var s := Run(steps);
    hide Run, ResentCount, LastSent;
    assert forall i :: 0 <= i < |s.queue| ==> NodeInv(s.queue[i], s.log, s.next);
    forall j | 0 <= j < |s.log|
      ensures (s.log[j].Resent? ==> SentAsKept(s.log, j)) && (s.log[j].Dropped? ==> GivenUpLate(s.log, j))
    {
      assert EntryOk(s.log, j);
    }
  }

  // ----- where what is kept comes from -----

  /** A record was sent with this type, payload and header. */
  ghost predicate SentBy(steps: seq<Step>, e: Entry)
    requires e.Queued?
  {
    exists i :: 0 <= i < |steps| && IsSending(steps[i], e)
  }

  predicate IsSending(step: Step, e: Entry)
    requires e.Queued?
  {
    && step.op.Sends? && step.now == e.at && e.kept.ctype == step.op.ctype && e.kept.data == step.op.data
    && |step.op.sent| >= Record.RH_LENGTH && e.kept.header == Record.KeptNode(step.op.sent)
  }

  /** The timer and stopping queue nothing. */
  ghost predicate NothingQueued(was: seq<Entry>, log: seq<Entry>)
  {
    was <= log && forall j :: |was| <= j < |log| ==> !log[j].Queued?
  }

  lemma CheckQueuesNothing(s: Sender, now: nat, clock: Clock)
    requires Sorted(s.queue) && Armed(s) && NotBehind(clock, now)
    ensures NothingQueued(s.log, Check(s, now, clock, 0).log)
  {
    hide Check, DueCount, OnceEach, Sorted, NothingQueued;
    CheckHandlesDue(s, now, clock, 0);
    HandlingQueuesNothing(s, Check(s, now, clock, 0), now);
  }

  lemma HandlingQueuesNothing(before: Sender, after: Sender, now: nat)
    requires OnceEach(before, after, now)
    ensures NothingQueued(before.log, after.log)
  {
    hide DueCount;
    var l := |before.log|;
    forall j | l <= j < |after.log| ensures !after.log[j].Queued? {
      assert About(after.log[l + (j - l)], before.queue[j - l], now);
    }
  }

  lemma {:induction false} StopsQueueNothing(q: seq<Node>, session: nat)
    ensures forall e :: e in StopsOf(q, session) ==> e.Stopped?
    decreases |q|
  {
    if q != [] {
      StopsQueueNothing(q[1..], session);
    }
  }

  lemma DoQueues(s: Sender, step: Step)
    requires ValidStep(step) && Inv(s)
    ensures s.log <= Do(s, step).log
    ensures forall e :: e in Do(s, step).log && e.Queued? ==> e in s.log || IsSending(step, e)
  {
    match step.op
    case Sends(session, ctype, sent, data) =>
      hide Insert, Record.KeptNode;
    case Ticks(clock) =>
      InvArmed(s);
      CheckQueuesNothing(s, step.now, clock);
      hide Check;
    case Stops(session) =>
      StopsExactly(s, session);
      StopsQueueNothing(s.queue, session);
      hide Stop, StopsOf;
  }

  /** In every run, what was queued is what was sent: its type, its payload and what its header was read back to. */
  lemma {:induction false} QueuedAsSent(steps: seq<Step>, e: Entry)
    requires forall i :: 0 <= i < |steps| ==> ValidStep(steps[i])
    requires e in Run(steps).log && e.Queued?
    ensures SentBy(steps, e)
    decreases |steps|
  {
    if steps != [] {
      var n := |steps| - 1;
      RunKeeps(steps[..n]);
      RunNext(steps);
      hide Do, Inv, IsSending;
      DoQueues(Run(steps[..n]), steps[n]);
      if e in Run(steps[..n]).log {
        QueuedAsSent(steps[..n], e);
        var i :| 0 <= i < n && IsSending(steps[..n][i], e);
        assert IsSending(steps[i], e);
      } else {
        assert IsSending(steps[n], e);
      }
    }
  }

  // ----- after a session was stopped -----

  ghost predicate Absent(s: Sender, serial: nat) { forall i :: 0 <= i < |s.queue| ==> s.queue[i].serial != serial }

  /** The log grows, and says nothing more about a node that is not there. */
  ghost predicate SilentSince(was: seq<Entry>, log: seq<Entry>, serial: nat)
  {
    was <= log && forall j :: |was| <= j < |log| ==> log[j].serial != serial
  }

  lemma SilentNext(was: seq<Entry>, log: seq<Entry>, e: Entry, serial: nat)
    requires SilentSince(was, log, serial) && e.serial != serial
    ensures SilentSince(was, log + [e], serial)
  {
  }

  lemma {:induction false} CheckSilent(s: Sender, now: nat, clock: Clock, k: nat, was: seq<Entry>, serial: nat)
    requires Armed(s) && NotBehind(clock, now) && Absent(s, serial) && SilentSince(was, s.log, serial)
    ensures var r := Check(s, now, clock, k); Absent(r, serial) && SilentSince(was, r.log, serial)
    decreases DueCount(s.queue, now)
  {
    if s.queue != [] && s.queue[0].t <= now {
      var n := s.queue[0];
      HandleFewer(s, now, clock(k));
      Inserted(s.queue[1..], PutOff(n, clock(k)));
      PutOffSame(n, clock(k));
      SilentNext(was, s.log, if n.count < MAX_RETRANSMIT then Resent(n.serial, clock(k), n.kept) else Dropped(n.serial, now), serial);
      hide SilentSince, Insert, PutOff, DueCount;
      var s1 := Handle(Popped(s), n, now, clock(k));
      assert forall i :: 0 <= i < |s1.queue| ==> s1.queue[i] in s1.queue;
      CheckSilent(s1, now, clock, k + 1, was, serial);
    }
  }

  lemma {:induction false} StopSilent(s: Sender, session: nat, i: nat, was: seq<Entry>, serial: nat)
    requires Absent(s, serial) && SilentSince(was, s.log, serial)
    ensures var r := Stop(s, session, i); Absent(r, serial) && SilentSince(was, r.log, serial)
    decreases |s.queue| - i
  {
    if i < |s.queue| {
      if s.queue[i].session == session {
        SilentNext(was, s.log, Stopped(s.queue[i].serial), serial);
        hide SilentSince;
        StopSilent(Sender(s.queue[..i] + s.queue[i + 1..], s.log + [Stopped(s.queue[i].serial)], s.next), session, i, was, serial);
      } else {
        StopSilent(s, session, i + 1, was, serial);
      }
    }
  }

  lemma DoSilent(s: Sender, step: Step, was: seq<Entry>, serial: nat)
    requires ValidStep(step) && Inv(s) && serial < s.next && Absent(s, serial) && SilentSince(was, s.log, serial)
    ensures var r := Do(s, step); Absent(r, serial) && SilentSince(was, r.log, serial) && serial < r.next
  {
    match step.op
    case Sends(session, ctype, sent, data) =>
      var kept := Kept(ctype, Record.KeptNode(sent), data);
      Inserted(s.queue, Node(s.next, step.now, step.now + FIRST_TIMEOUT, 0, FIRST_TIMEOUT, session, kept));
      SilentNext(was, s.log, Queued(s.next, step.now, kept), serial);
      hide Insert, Inv, SilentSince, Record.KeptNode;
      var r := Do(s, step);
      assert forall i :: 0 <= i < |r.queue| ==> r.queue[i] in r.queue;
    case Ticks(clock) =>
      InvArmed(s);
      CheckSilent(s, step.now, clock, 0, was, serial);
      CheckNext(s, step.now, clock, 0);
    case Stops(session) =>
      StopSilent(s, session, 0, was, serial);
      StopsExactly(s, session);
      StopLeaves(s, session, 0);
  }

  lemma {:induction false} CheckNext(s: Sender, now: nat, clock: Clock, k: nat)
    requires Armed(s) && NotBehind(clock, now)
    ensures Check(s, now, clock, k).next == s.next
    decreases DueCount(s.queue, now)
  {
    if s.queue != [] && s.queue[0].t <= now {
      HandleFewer(s, now, clock(k));
      CheckNext(Handle(Popped(s), s.queue[0], now, clock(k)), now, clock, k + 1);
    }
  }

  lemma {:induction false} StaysSilent(steps: seq<Step>, k: nat, serial: nat)
    requires k <= |steps| && (forall i :: 0 <= i < |steps| ==> ValidStep(steps[i]))
    requires Absent(Run(steps[..k]), serial) && serial < Run(steps[..k]).next
    ensures Absent(Run(steps), serial) && SilentSince(Run(steps[..k]).log, Run(steps).log, serial) && serial < Run(steps).next
    decreases |steps|
  {
    hide Do, Inv, Armed, Absent;
    if k == |steps| {
      assert steps[..k] == steps;
    } else {
      hide Run, SilentSince;
      var n := |steps| - 1;
      assert steps[..n][..k] == steps[..k];
      StaysSilent(steps[..n], k, serial);
      RunKeeps(steps[..n]);
      RunNext(steps);
      DoSilent(Run(steps[..n]), steps[n], Run(steps[..k]).log, serial);
    }
  }

  lemma RunNext(steps: seq<Step>)
    requires steps != [] && forall i :: 0 <= i < |steps| ==> ValidStep(steps[i])
    ensures Run(steps) == Do(Run(steps[..|steps| - 1]), steps[|steps| - 1])
  {
    hide Do;
  }

  /** After a session was stopped, none of the records it had queued before is sent again or given up later. */
  lemma StoppedForGood(steps: seq<Step>, k: nat, session: nat, i: nat)
    requires k < |steps| && (forall j :: 0 <= j < |steps| ==> ValidStep(steps[j])) && steps[k].op == Stops(session)
    requires i < |Run(steps[..k]).queue| && Run(steps[..k]).queue[i].session == session
    ensures var serial := Run(steps[..k]).queue[i].serial;
            Absent(Run(steps), serial) && SilentSince(Run(steps[..k + 1]).log, Run(steps).log, serial)
  {
    RunKeeps(steps[..k]);
    assert steps[..k + 1][..k] == steps[..k];
    var s, r := Run(steps[..k]), Run(steps[..k + 1]);
    StopsExactly(s, session);
    StopLeaves(s, session, 0);
    var n := s.queue[i];
    forall j | 0 <= j < |r.queue| ensures r.queue[j].serial != n.serial {
      assert r.queue[j] in r.queue;
      var l :| 0 <= l < |s.queue| && s.queue[l] == r.queue[j];
      assert l != i;
    }
    assert NodeInv(n, s.log, s.next);
    hide Run, Inv, NodeInv, Stop;
    StaysSilent(steps, k + 1, n.serial);
  }

  // ----- the statements of netq.c and dtls.c -----

  class SendQueue {
    var queue: seq<Node>
    var log: seq<Entry>              // kept for the statements only, like next
    var next: nat

    function St(): Sender reads this { Sender(queue, log, next) }

    constructor ()
      ensures St() == Fresh()
    {
      queue, log, next := [], [], 0;
    }

    /** netq_insert_node */
    method InsertNode(node: Node)
      modifies this`queue
      ensures queue == Insert(old(queue), node)
    {
      var p := 0;
      while p < |queue| && queue[p].t <= node.t
        invariant p <= |queue| && Place(queue, node.t) == p + Place(queue[p..], node.t)
      {
        assert queue[p..][1..] == queue[p + 1..];
        p := p + 1;
      }
      queue := queue[..p] + [node] + queue[p..];
    }

    /** dtls_send_multi's copy of what was sent */
    method KeepForRetransmission(session: nat, ctype: byte, sent: bytes, data: bytes, now: nat)
      requires |sent| >= Record.RH_LENGTH
      modifies this
      ensures St() == Enqueue(old(St()), session, ctype, sent, data, now)
    {
      var kept := Kept(ctype, Record.Node(GetBE(sent[1..3]), GetBE(sent[3..5]), GetBE(sent[5..7])), data);
      InsertNode(Node(next, now, now + FIRST_TIMEOUT, 0, FIRST_TIMEOUT, session, kept));
      log := log + [Queued(next, now, kept)];
      next := next + 1;
    }

    /** dtls_retransmit */
    method RetransmitNode(node: Node, now: nat, ticks: nat)
      modifies this
      ensures St() == Handle(old(St()), node, now, ticks)
    {
      if node.count < MAX_RETRANSMIT {
        var n := node.(count := node.count + 1);
        n := n.(t := ticks + n.timeout * Pow2(n.count));
        InsertNode(n);
        log := log + [Resent(node.serial, ticks, node.kept)];
      } else {
        log := log + [Dropped(node.serial, now)];
      }
    }

    /** dtls_check_retransmit */
    method CheckRetransmit(now: nat, clock: Clock) returns (nextTime: nat)
      requires Armed(St()) && NotBehind(clock, now)
      modifies this
      ensures St() == Check(old(St()), now, clock, 0) && nextTime == NextTime(St())
    {
      ghost var goal := Check(St(), now, clock, 0);
      var k := 0;
      hide Handle;
      while queue != [] && queue[0].t <= now
        invariant Armed(St()) && Check(St(), now, clock, k) == goal
        decreases DueCount(queue, now)
      {
        HandleFewer(St(), now, clock(k));
        var node := queue[0];
        queue := queue[1..];
        RetransmitNode(node, now, clock(k));
        k := k + 1;
      }
      nextTime := if queue == [] then 0 else queue[0].t;
    }

    /** dtls_stop_retransmission */
    method StopRetransmission(session: nat)
      modifies this
      ensures St() == Stop(old(St()), session, 0)
    {
      var i := 0;
      while i < |queue|
        invariant i <= |queue| && Stop(St(), session, i) == Stop(old(St()), session, 0)
        decreases |queue| - i
      {
        if queue[i].session == session {
          log := log + [Stopped(queue[i].serial)];
          queue := queue[..i] + queue[i + 1..];
        } else {
          i := i + 1;
        }
      }
    }
  }
}
