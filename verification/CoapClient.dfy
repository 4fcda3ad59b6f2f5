/**
 * The client transactions of a CoAP peer: retransmission with exponential
 * back-off, and the one event each transaction ends with (CoAPPeer.cpp;
 * section 4.2 of RFC 7252).
 */
module CoapClient {
  import opened Bytes

  const NSTART := 5
  const ACK_TIMEOUT := 5
  const MAX_RETRANSMIT := 3
  const RANDOM_SPAN := 7500          // ACK_TIMEOUT * 1000 * ACK_RANDOM_FACTOR

  datatype Kind = Con | Non

  datatype Event = Ack | Rst | Timeout | Canceled

  /**
   * coap_client_transaction_t; serial, started, first and total are for the
   * statements only: a number of its own, and when it started, with which
   * interval and how many retransmissions left.
   */
  datatype Tx = Tx(serial: nat, id: nat, kind: Kind, expires: nat, interval: nat, left: int, message: bytes, cb: bool,
                   started: nat, first: nat, total: int)

  /** What happened, in order: a transaction was saved, sent again, or its callback was called. */
  datatype Entry = Started(tx: Tx) | Resent(serial: nat, message: bytes) | Told(serial: nat, event: Event, at: nat)

  datatype Client = Client(space: int, table: seq<Tx>, log: seq<Entry>, next: nat)

  function Fresh(): Client { Client(NSTART, [], [], 0) }

  // ----- the operations -----

  predicate Over(t: Tx, now: nat) { t.expires <= now && t.left <= 0 }

  predicate Due(t: Tx, now: nat) { t.expires <= now && t.left > 0 }

  /** A transaction ends, with an event for its callback or without. */
  function End(c: Client, i: nat, event: Event, now: nat): Client
    requires i < |c.table|
  {
    var t := c.table[i];
    c.(table := Without(c.table, i), space := c.space + 1,
       log := if t.cb then c.log + [Told(t.serial, event, now)] else c.log)
  }

  function Drop(c: Client, i: nat): Client
    requires i < |c.table|
  {
    c.(table := Without(c.table, i), space := c.space + 1)
  }

  /** dropExpiredClientTransactions, from position i on */
  function DropExpired(c: Client, i: nat, now: nat): Client
    decreases |c.table| - i
  {
    if i >= |c.table| then c
    else if Over(c.table[i], now) then DropExpired(End(c, i, Timeout, now), i, now)
    else DropExpired(c, i + 1, now)
  }

  /** A transaction is sent again: the interval of a CON is doubled. */
  function Again(t: Tx, now: nat): Tx
  {
    var interval := if t.kind.Con? then 2 * t.interval else t.interval;
    t.(interval := interval, expires := now + interval, left := t.left - 1)
  }

  function Resend(c: Client, i: nat, now: nat): Client
    requires i < |c.table|
  {
    c.(table := c.table[i := Again(c.table[i], now)], log := c.log + [Resent(c.table[i].serial, c.table[i].message)])
  }

  /** The loop of triggerClientTransactionRetransmissions, from position i on */
  function ResendDue(c: Client, i: nat, now: nat): Client
    decreases |c.table| - i
  {
    if i >= |c.table| then c
    else ResendDue(if Due(c.table[i], now) then Resend(c, i, now) else c, i + 1, now)
  }

  function Find(table: seq<Tx>, id: nat): (i: nat)
    ensures i <= |table| && (i < |table| ==> table[i].id == id)
    ensures forall j :: 0 <= j < i ==> table[j].id != id
  {
    if table == [] then 0
    else
      var n := |table| - 1;
      var i := Find(table[..n], id);
      if i < n then i else if table[n].id == id then n else n + 1
  }

  /** The part both kinds of putClientTransaction share; the flag says whether it was saved. */
  function Put(c: Client, t: Tx, now: nat): (Client, bool)
  {
    var c1 := DropExpired(c, 0, now);
    if Find(c1.table, t.id) < |c1.table| || c1.space == 0 then (c1, false)
    else
      var t' := t.(serial := c1.next);
      (c1.(table := c1.table + [t'], space := c1.space - 1, log := c1.log + [Started(t')], next := c1.next + 1), true)
  }

  /** A CON with the random part of its first interval. */
  function NewCon(id: nat, message: bytes, cb: bool, random: nat, now: nat): Tx
  {
    var interval := ACK_TIMEOUT * 1000 + random;
    Tx(0, id, Con, now + interval, interval, MAX_RETRANSMIT, message, cb, now, interval, MAX_RETRANSMIT)
  }

  /** A NON sent at a probing rate; the interval computed must not be 0. */
  function NewNon(id: nat, message: bytes, rate: nat, span: nat, now: nat): Tx
    requires rate > 0 && |message| * 1000 / rate > 0
  {
    var interval := |message| * 1000 / rate;
    var left := span * 1000 / interval;
    Tx(0, id, Non, now + interval, interval, left, message, false, now, interval, left)
  }

  /** dropClientTransaction(message_id): ends without an event. */
  function DropId(c: Client, i: nat, id: nat): Client
    decreases |c.table| - i
  {
    if i >= |c.table| then c
    else if c.table[i].id == id then DropId(Drop(c, i), i, id)
    else DropId(c, i + 1, id)
  }

  /** An ACK or RST arrives, or the application cancels: the transaction ends with that event. */
  function Finish(c: Client, id: nat, event: Event, now: nat): Client
  {
    var c1 := DropExpired(c, 0, now);
    var i := Find(c1.table, id);
    if i < |c1.table| then End(c1, i, event, now) else c1
  }

  datatype Op = SendCon(id: nat, message: bytes, cb: bool, random: nat)
              | SendNon(id: nat, message: bytes, rate: nat, span: nat)
              | Unsent(id: nat)              // sendUnreliably, when handing the message down fails
              | Acked(id: nat) | WasReset(id: nat) | Cancel(id: nat) | Trigger

  predicate ValidOp(op: Op)
  {
    match op
    case SendCon(_, _, _, random) => random < RANDOM_SPAN
    case SendNon(_, message, rate, _) => rate > 0 && |message| * 1000 / rate > 0
    case _ => true
  }

  /** sendReliably and sendUnreliably drop what is saved under the id when saving fails. */
  function Sent(r: (Client, bool), id: nat): Client { if r.1 then r.0 else DropId(r.0, 0, id) }

  function Do(c: Client, op: Op, now: nat): Client
    requires ValidOp(op)
  {
    match op
    case SendCon(id, message, cb, random) => Sent(Put(c, NewCon(id, message, cb, random, now), now), id)
    case SendNon(id, message, rate, span) => Sent(Put(c, NewNon(id, message, rate, span, now), now), id)
    case Unsent(id) => DropId(c, 0, id)
    case Acked(id) => Finish(c, id, Ack, now)
    case WasReset(id) => Finish(c, id, Rst, now)
    case Cancel(id) => Finish(c, id, Canceled, now)
    case Trigger => ResendDue(DropExpired(c, 0, now), 0, now)
  }

  // ----- what every transaction and the log satisfy -----

  function ResentCount(log: seq<Entry>, serial: nat): nat
  {
    if log == [] then 0
    else
      var e := log[|log| - 1];
      ResentCount(log[..|log| - 1], serial) + if e.Resent? && e.serial == serial then 1 else 0
  }

  ghost predicate Quiet(log: seq<Entry>, serial: nat)
  {
    forall i :: 0 <= i < |log| && log[i].Told? ==> log[i].serial != serial
  }

  ghost predicate StartedAs(log: seq<Entry>, t: Tx)
  {
    exists i :: 0 <= i < |log| && log[i].Started? && log[i].tx.serial == t.serial && log[i].tx.kind == t.kind
                && log[i].tx.started == t.started && log[i].tx.first == t.first && log[i].tx.message == t.message
                && log[i].tx.total == t.total
  }

  /** The back-off of a CON with k retransmissions behind it. */
  predicate BackedOff(t: Tx)
  {
    t.kind.Con? ==>
      && 0 <= t.left <= MAX_RETRANSMIT && t.first >= ACK_TIMEOUT * 1000
      && t.interval == t.first * Pow2(MAX_RETRANSMIT - t.left)
      && t.expires >= t.started + t.first * (Pow2(MAX_RETRANSMIT - t.left + 1) - 1)
  }

  ghost predicate TxInv(t: Tx, log: seq<Entry>, next: nat)
  {
    && t.serial < next && (t.cb ==> t.kind.Con?) && BackedOff(t) && Quiet(log, t.serial) && StartedAs(log, t)
    && (t.kind.Con? ==> t.total == MAX_RETRANSMIT) && (t.kind.Non? ==> t.interval == t.first)
    && ResentCount(log, t.serial) == t.total - t.left
  }

  /** A timed out CON was sent again MAX_RETRANSMIT times, over at least 15 times its first interval. */
  ghost predicate ToldRightly(log: seq<Entry>, j: nat)
    requires j < |log| && log[j].Told?
  {
    && Quiet(log[..j], log[j].serial)
    && (log[j].event.Timeout? ==> TimedOut(log, j))
  }

  ghost predicate TimedOut(log: seq<Entry>, j: nat)
    requires j < |log| && log[j].Told?
  {
    && ResentCount(log[..j], log[j].serial) == MAX_RETRANSMIT
    && exists i :: 0 <= i < j && log[i].Started? && log[i].tx.serial == log[j].serial
                   && log[i].tx.first >= ACK_TIMEOUT * 1000
                   && log[j].at >= log[i].tx.started + 15 * log[i].tx.first
  }

  ghost predicate LogInv(log: seq<Entry>)
  {
    forall j :: 0 <= j < |log| && log[j].Told? ==> ToldRightly(log, j)
  }

  function SerialOf(e: Entry): nat { if e.Started? then e.tx.serial else e.serial }

  ghost predicate TableInv(table: seq<Tx>, log: seq<Entry>, next: nat)
  {
    && (forall i :: 0 <= i < |table| ==> TxInv(table[i], log, next))
    && (forall i, j :: 0 <= i < j < |table| ==> table[i].id != table[j].id && table[i].serial != table[j].serial)
  }

  ghost predicate Inv(c: Client)
  {
    && c.space >= 0 && c.space + |c.table| == NSTART
    && TableInv(c.table, c.log, c.next)
    && LogInv(c.log)
    && forall i :: 0 <= i < |c.log| ==> SerialOf(c.log[i]) < c.next
  }

  // ----- each step keeps it -----

  lemma CountNext(log: seq<Entry>, e: Entry, serial: nat)
    ensures ResentCount(log + [e], serial) == ResentCount(log, serial) + if e.Resent? && e.serial == serial then 1 else 0
  {
    assert (log + [e])[..|log|] == log;
  }

  lemma StartedStays(log: seq<Entry>, e: Entry, t: Tx)
    requires StartedAs(log, t)
    ensures StartedAs(log + [e], t)
  {
    var i :| 0 <= i < |log| && log[i].Started? && log[i].tx.serial == t.serial && log[i].tx.kind == t.kind
             && log[i].tx.started == t.started && log[i].tx.first == t.first && log[i].tx.message == t.message
             && log[i].tx.total == t.total;
    assert (log + [e])[i] == log[i];
  }

  /** An entry about another transaction changes nothing for this one. */
  lemma OtherEntry(t: Tx, log: seq<Entry>, e: Entry, next: nat, next': nat)
    requires TxInv(t, log, next) && SerialOf(e) != t.serial && next <= next'
    ensures TxInv(t, log + [e], next')
  {
    CountNext(log, e, t.serial);
    StartedStays(log, e, t);
  }

  lemma LogGrows(log: seq<Entry>, e: Entry)
    requires LogInv(log)
    requires e.Told? ==> Quiet(log, e.serial) && (e.event.Timeout? ==> TimedOut(log + [e], |log|))
    ensures LogInv(log + [e])
  {
    var l := log + [e];
    assert l[..|log|] == log;
    forall j | 0 <= j < |l| && l[j].Told? ensures ToldRightly(l, j) {
      if j < |log| {
        assert l[..j] == log[..j] && log[j] == l[j];
        if log[j].event.Timeout? {
          var i :| 0 <= i < j && log[i].Started? && log[i].tx.serial == log[j].serial
                   && log[j].at >= log[i].tx.started + 15 * log[i].tx.first;
          assert l[i] == log[i];
        }
      }
    }
  }

  lemma WithoutElements(table: seq<Tx>, i: nat)
    requires i < |table|
    ensures forall k :: 0 <= k < |table| - 1 ==> Without(table, i)[k] == table[if k < i then k else k + 1]
  {
  }

  lemma DropKeeps(c: Client, i: nat)
    requires Inv(c) && i < |c.table|
    ensures Inv(Drop(c, i))
  {
    hide TxInv, LogInv;
    WithoutElements(c.table, i);
  }

  lemma EndKeeps(c: Client, i: nat, event: Event, now: nat)
    requires Inv(c) && i < |c.table| && (event.Timeout? ==> Over(c.table[i], now))
    ensures Inv(End(c, i, event, now))
  {
    var t := c.table[i];
    DropKeeps(c, i);
    if t.cb {
      var e := Told(t.serial, event, now);
      if event.Timeout? {
        TimesOut(t, c.log, now, c.next);
      }
      TxQuiet(t, c.log, c.next);
      hide TxInv, LogInv;
      LogGrows(c.log, e);
      var table := Without(c.table, i);
      WithoutElements(c.table, i);
      forall k | 0 <= k < |table| ensures TxInv(table[k], c.log + [e], c.next) {
        OtherEntry(table[k], c.log, e, c.next, c.next);
      }
    }
  }

  lemma TxQuiet(t: Tx, log: seq<Entry>, next: nat)
    requires TxInv(t, log, next)
    ensures Quiet(log, t.serial) && t.serial < next
  {
  }

  lemma TimesOut(t: Tx, log: seq<Entry>, now: nat, next: nat)
    requires TxInv(t, log, next) && t.kind.Con? && Over(t, now)
    ensures TimedOut(log + [Told(t.serial, Timeout, now)], |log|)
  {
    var l := log + [Told(t.serial, Timeout, now)];
    assert l[..|log|] == log;
    assert Pow2(4) == 16;
    var i :| 0 <= i < |log| && log[i].Started? && log[i].tx.serial == t.serial && log[i].tx.kind == t.kind
             && log[i].tx.started == t.started && log[i].tx.first == t.first && log[i].tx.message == t.message
             && log[i].tx.total == t.total;
    assert l[i] == log[i];
  }

  lemma {:induction false} DropExpiredKeeps(c: Client, i: nat, now: nat)
    requires Inv(c)
    ensures Inv(DropExpired(c, i, now))
    decreases |c.table| - i
  {
    hide Inv;
    if i < |c.table| {
      if Over(c.table[i], now) {
        EndKeeps(c, i, Timeout, now);
        DropExpiredKeeps(End(c, i, Timeout, now), i, now);
      } else {
        DropExpiredKeeps(c, i + 1, now);
      }
    }
  }

  lemma {:induction false} DropIdKeeps(c: Client, i: nat, id: nat)
    requires Inv(c)
    ensures Inv(DropId(c, i, id))
    decreases |c.table| - i
  {
    hide Inv;
    if i < |c.table| {
      if c.table[i].id == id {
        DropKeeps(c, i);
        DropIdKeeps(Drop(c, i), i, id);
      } else {
        DropIdKeeps(c, i + 1, id);
      }
    }
  }

  lemma AgainBacksOff(t: Tx, now: nat)
    requires BackedOff(t) && Due(t, now)
    ensures BackedOff(Again(t, now))
  {
    if t.kind.Con? {
      var k := MAX_RETRANSMIT - t.left;
      assert Pow2(k + 1) == 2 * Pow2(k) && Pow2(k + 2) == 2 * Pow2(k + 1);
      Doubled(t.first, Pow2(k));
    }
  }

  lemma Doubled(first: nat, p: nat)
    ensures 2 * (first * p) == first * (2 * p)
    ensures first * (2 * p - 1) + first * (2 * p) == first * (4 * p - 1)
  {
  }

  lemma ResendKeeps(c: Client, i: nat, now: nat)
    requires Inv(c) && i < |c.table| && Due(c.table[i], now)
    ensures Inv(Resend(c, i, now))
  {
    var t, e := c.table[i], Resent(c.table[i].serial, c.table[i].message);
    var t' := Again(t, now);
    AgainTx(t, now, c.log, c.next);
    hide TxInv, LogInv, Again;
    LogGrows(c.log, e);
    var table := c.table[i := t'];
    forall k | 0 <= k < |table| ensures TxInv(table[k], c.log + [e], c.next) {
      if k != i {
        OtherEntry(table[k], c.log, e, c.next, c.next);
      }
    }
  }

  lemma AgainTx(t: Tx, now: nat, log: seq<Entry>, next: nat)
    requires TxInv(t, log, next) && Due(t, now)
    ensures TxInv(Again(t, now), log + [Resent(t.serial, t.message)], next)
    ensures Again(t, now).id == t.id && Again(t, now).serial == t.serial && t.serial < next
  {
    AgainBacksOff(t, now);
    CountNext(log, Resent(t.serial, t.message), t.serial);
    StartedStays(log, Resent(t.serial, t.message), t);
  }

  lemma {:induction false} ResendDueKeeps(c: Client, i: nat, now: nat)
    requires Inv(c)
    ensures Inv(ResendDue(c, i, now))
    decreases |c.table| - i
  {
    hide Inv;
    if i < |c.table| {
      if Due(c.table[i], now) {
        ResendKeeps(c, i, now);
        ResendDueKeeps(Resend(c, i, now), i + 1, now);
      } else {
        ResendDueKeeps(c, i + 1, now);
      }
    }
  }

  lemma {:induction false} NothingOf(log: seq<Entry>, serial: nat)
    requires forall i :: 0 <= i < |log| ==> SerialOf(log[i]) < serial
    ensures ResentCount(log, serial) == 0 && Quiet(log, serial)
    decreases |log|
  {
    if log != [] {
      NothingOf(log[..|log| - 1], serial);
    }
  }

  /** As a transaction is when it starts. */
  predicate Begins(t: Tx) { t.total == t.left && t.interval == t.first }

  lemma PutKeeps(c: Client, t: Tx, now: nat)
    requires Inv(c) && BackedOff(t) && (t.cb ==> t.kind.Con?) && (t.kind.Con? ==> t.left == MAX_RETRANSMIT) && Begins(t)
    ensures Inv(Put(c, t, now).0)
  {
    DropExpiredKeeps(c, 0, now);
    var c1 := DropExpired(c, 0, now);
    hide DropExpired;
    if Find(c1.table, t.id) == |c1.table| && c1.space != 0 {
      AddKeeps(c1, t.(serial := c1.next));
    }
  }

  lemma NewTx(t: Tx, log: seq<Entry>)
    requires BackedOff(t) && (t.cb ==> t.kind.Con?) && (t.kind.Con? ==> t.left == MAX_RETRANSMIT) && Begins(t)
    requires forall i :: 0 <= i < |log| ==> SerialOf(log[i]) < t.serial
    ensures TxInv(t, log + [Started(t)], t.serial + 1)
  {
    NothingOf(log, t.serial);
    CountNext(log, Started(t), t.serial);
    assert (log + [Started(t)])[|log|] == Started(t);
  }

  lemma AddKeeps(c: Client, t: Tx)
    requires Inv(c) && BackedOff(t) && (t.cb ==> t.kind.Con?) && (t.kind.Con? ==> t.left == MAX_RETRANSMIT) && Begins(t)
    requires t.serial == c.next && c.space != 0 && Find(c.table, t.id) == |c.table|
    ensures Inv(c.(table := c.table + [t], space := c.space - 1, log := c.log + [Started(t)], next := c.next + 1))
  {
    var e, next := Started(t), c.next + 1;
    NewTx(t, c.log);
    LogGrows(c.log, e);
    forall k | 0 <= k < |c.table| ensures TxInv(c.table[k], c.log + [e], next) && c.table[k].serial < c.next {
      TxQuiet(c.table[k], c.log, c.next);
      OtherEntry(c.table[k], c.log, e, c.next, next);
    }
    hide TxInv, LogInv, BackedOff;
  }

  lemma DoKeeps(c: Client, op: Op, now: nat)
    requires Inv(c) && ValidOp(op)
    ensures Inv(Do(c, op, now))
  {
    hide Inv, Put, End, DropId, DropExpired, ResendDue;
    match op
    case SendCon(id, message, cb, random) =>
      var t := NewCon(id, message, cb, random, now);
      NewConBacksOff(id, message, cb, random, now);
      PutKeeps(c, t, now);
      DropIdKeeps(Put(c, t, now).0, 0, id);
    case SendNon(id, message, rate, span) =>
      var t := NewNon(id, message, rate, span, now);
      PutKeeps(c, t, now);
      DropIdKeeps(Put(c, t, now).0, 0, id);
    case Unsent(id) => DropIdKeeps(c, 0, id);
    case Acked(id) => FinishKeeps(c, id, Ack, now);
    case WasReset(id) => FinishKeeps(c, id, Rst, now);
    case Cancel(id) => FinishKeeps(c, id, Canceled, now);
    case Trigger =>
      DropExpiredKeeps(c, 0, now);
      ResendDueKeeps(DropExpired(c, 0, now), 0, now);
  }

  lemma NewConBacksOff(id: nat, message: bytes, cb: bool, random: nat, now: nat)
    ensures BackedOff(NewCon(id, message, cb, random, now))
  {
    assert Pow2(0) == 1 && Pow2(1) == 2;
  }

  lemma FinishKeeps(c: Client, id: nat, event: Event, now: nat)
    requires Inv(c) && !event.Timeout?
    ensures Inv(Finish(c, id, event, now))
  {
    hide Inv, End, DropExpired;
    DropExpiredKeeps(c, 0, now);
    var c1 := DropExpired(c, 0, now);
    var i := Find(c1.table, id);
    if i < |c1.table| {
      EndKeeps(c1, i, event, now);
    }
  }

  // ----- whole runs -----

  /** One operation and the time it reads from the clock. */
  datatype Step = Step(op: Op, now: nat)

  ghost predicate ValidRun(steps: seq<Step>) { forall i :: 0 <= i < |steps| ==> ValidOp(steps[i].op) }

  ghost function Run(steps: seq<Step>): Client
    requires ValidRun(steps)
  {
    if steps == [] then Fresh()
    else Do(Run(steps[..|steps| - 1]), steps[|steps| - 1].op, steps[|steps| - 1].now)
  }

  lemma {:induction false} RunKeeps(steps: seq<Step>)
    requires ValidRun(steps)
    ensures Inv(Run(steps))
    decreases |steps|
  {
    if steps != [] {
      RunKeeps(steps[..|steps| - 1]);
      DoKeeps(Run(steps[..|steps| - 1]), steps[|steps| - 1].op, steps[|steps| - 1].now);
    }
  }

  /** In every run: no more than NSTART transactions, each place accounted for, and no two with one message id. */
  lemma TableInEveryRun(steps: seq<Step>)
    requires ValidRun(steps)
    ensures var c := Run(steps);
            && c.space + |c.table| == NSTART && 0 <= c.space <= NSTART
            && forall i, j :: 0 <= i < j < |c.table| ==> c.table[i].id != c.table[j].id
  {
    RunKeeps(steps);
  }

  /** In every run a transaction's callback is called once at most. */
  lemma OneEventEach(steps: seq<Step>, i: nat, j: nat)
    requires ValidRun(steps) && i < j < |Run(steps).log|
    requires Run(steps).log[i].Told? && Run(steps).log[j].Told?
    ensures Run(steps).log[i].serial != Run(steps).log[j].serial
  {
    RunKeeps(steps);
    var log := Run(steps).log;
    assert ToldRightly(log, j);
    assert log[..j][i] == log[i];
  }

  /**
   * In every run a Timeout comes only after exactly MAX_RETRANSMIT attempts to
   * send the message again, and not before 15 times the first interval, which
   * is at least ACK_TIMEOUT seconds.
   */
  lemma TimeoutAfterBackOff(steps: seq<Step>, j: nat)
    requires ValidRun(steps) && j < |Run(steps).log|
    requires Run(steps).log[j].Told? && Run(steps).log[j].event.Timeout?
    ensures TimedOut(Run(steps).log, j)
  {
    RunKeeps(steps);
    assert ToldRightly(Run(steps).log, j);
  }

  // ----- the statements of CoAPPeer.cpp -----

  class Transactions {
    var space: int
    var table: seq<Tx>
    var log: seq<Entry>              // kept for the statements only, like next
    var next: nat

    ghost function St(): Client reads this { Client(space, table, log, next) }

    constructor ()
      ensures St() == Fresh()
    {
      space, table, log, next := NSTART, [], [], 0;
    }

    /** WL_DELETE, the callback with the event, space_left++ */
    method Finish(i: nat, event: Event, now: nat)
      requires i < |table|
      modifies this
      ensures St() == End(old(St()), i, event, now)
    {
      var t := table[i];
      table := table[..i] + table[i + 1..];
      if t.cb {
        log := log + [Told(t.serial, event, now)];
      }
      space := space + 1;
    }

    /** dropExpiredClientTransactions */
    method DropExpiredTransactions(now: nat)
      modifies this
      ensures St() == DropExpired(old(St()), 0, now)
    {
      var i := 0;
      while i < |table|
        invariant i <= |table|
        invariant DropExpired(St(), i, now) == DropExpired(old(St()), 0, now)
        decreases |table| - i
      {
        if table[i].expires > now || table[i].left > 0 {
          i := i + 1;
        } else {
          Finish(i, Timeout, now);
        }
      }
    }

    /** triggerClientTransactionRetransmissions; whether handing the message down succeeds makes no difference. */
    method TriggerRetransmissions(now: nat)
      modifies this
      ensures St() == Do(old(St()), Trigger, now)
    {
      DropExpiredTransactions(now);
      ghost var c := St();
      var i := 0;
      while i < |table|
        invariant i <= |table|
        invariant ResendDue(St(), i, now) == ResendDue(c, 0, now)
      {
        var t := table[i];
        if !(t.expires > now || t.left <= 0) {
          log := log + [Resent(t.serial, t.message)];
          if t.kind.Con? {
            t := t.(interval := t.interval * 2);
          }
          t := t.(expires := now + t.interval);
          t := t.(left := t.left - 1);
          table := table[i := t];
        }
        i := i + 1;
      }
    }

    /** Looks for a message id from the head of the list on. */
    method Lookup(id: nat) returns (i: nat)
      ensures i == Find(table, id)
    {
      i := 0;
      while i < |table| && table[i].id != id
        invariant i <= |table| && forall j :: 0 <= j < i ==> table[j].id != id
      {
        i := i + 1;
      }
    }

    /** putClientTransactionCON and putClientTransactionNON from the search on */
    method PutTransaction(t: Tx, now: nat) returns (ok: bool)
      modifies this
      ensures (St(), ok) == Put(old(St()), t, now)
    {
      DropExpiredTransactions(now);
      var i := Lookup(t.id);
      if i < |table| {
        return false;
      }
      if space == 0 {
        return false;
      }
      var t' := t.(serial := next);
      table := table + [t'];
      space := space - 1;
      log := log + [Started(t')];
      next := next + 1;
      return true;
    }

    /** dropClientTransaction(message_id) */
    method DropById(id: nat)
      modifies this
      ensures St() == DropId(old(St()), 0, id)
    {
      var i := 0;
      while i < |table|
        invariant i <= |table|
        invariant DropId(St(), i, id) == DropId(old(St()), 0, id)
        decreases |table| - i
      {
        if table[i].id != id {
          i := i + 1;
        } else {
          table := table[..i] + table[i + 1..];
          space := space + 1;
        }
      }
    }
  }
}
