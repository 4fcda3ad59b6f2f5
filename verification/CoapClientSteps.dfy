/**
 * What each operation on the client transactions does: which are sent again,
 * which are told what, and what becomes of a message that is never answered
 * (CoAPPeer.cpp).
 */
module CoapClientSteps {
  import opened Bytes
  import opened CoapClient
  import opened CoapClientLoss

  // ----- what has expired -----

  /** The transactions that are not over, in their order. */
  function Alive(table: seq<Tx>, now: nat): seq<Tx>
  {
    if table == [] then []
    else if Over(table[0], now) then Alive(table[1..], now) else [table[0]] + Alive(table[1..], now)
  }

  /** A Timeout for each of the others that has a callback, in their order. */
  function Timeouts(table: seq<Tx>, now: nat): seq<Entry>
  {
    if table == [] then []
    else (if Over(table[0], now) && table[0].cb then [Told(table[0].serial, Timeout, now)] else []) + Timeouts(table[1..], now)
  }

  /** From position i on. */
  lemma {:induction false} DropExpiredFrom(c: Client, i: nat, now: nat)
    requires i <= |c.table|
    ensures var r, rest := DropExpired(c, i, now), c.table[i..];
            && r.table == c.table[..i] + Alive(rest, now) && r.log == c.log + Timeouts(rest, now)
            && r.space + |r.table| == c.space + |c.table| && r.next == c.next
    decreases |c.table| - i
  {
    if i == |c.table| {
      assert c.table[..i] + [] == c.table && c.log + [] == c.log;
    } else {
      var t, rest := c.table[i], c.table[i + 1..];
      assert c.table[i..] == [t] + rest && c.table[i..][1..] == rest;
      if Over(t, now) {
        var c1 := End(c, i, Timeout, now);
        DropExpiredFrom(c1, i, now);
        assert c1.table[..i] == c.table[..i] && c1.table[i..] == rest;
        assert c1.log + Timeouts(rest, now) == c.log + Timeouts(c.table[i..], now);
      } else {
        DropExpiredFrom(c, i + 1, now);
        assert c.table[..i + 1] == c.table[..i] + [t];
        assert c.table[..i] + [t] + Alive(rest, now) == c.table[..i] + ([t] + Alive(rest, now));
      }
    }
  }

  lemma DropExpiredExactly(c: Client, now: nat)
    ensures var r := DropExpired(c, 0, now);
            && r.table == Alive(c.table, now) && r.log == c.log + Timeouts(c.table, now)
            && r.space + |r.table| == c.space + |c.table| && r.next == c.next
            && (forall t :: t in r.table <==> t in c.table && !(t.expires <= now && t.left <= 0))
  {
    DropExpiredFrom(c, 0, now);
    AliveAre(c.table, now);
    assert c.table[0..] == c.table;
  }

  lemma {:induction false} AliveAre(table: seq<Tx>, now: nat)
    ensures forall t :: t in Alive(table, now) <==> t in table && !Over(t, now)
    decreases |table|
  {
    if table != [] {
      AliveAre(table[1..], now);
      assert table == [table[0]] + table[1..];
    }
  }

  lemma {:induction false} TimeoutsAre(table: seq<Tx>, now: nat)
    ensures forall e :: e in Timeouts(table, now) <==>
                        exists t :: t in table && t.expires <= now && t.left <= 0 && t.cb && e == Told(t.serial, Timeout, now)
    decreases |table|
  {
    if table != [] {
      TimeoutsAre(table[1..], now);
      assert table == [table[0]] + table[1..];
      forall e ensures e in Timeouts(table, now) <==>
                       exists t :: t in table && t.expires <= now && t.left <= 0 && t.cb && e == Told(t.serial, Timeout, now) {
        if Over(table[0], now) && table[0].cb && e == Told(table[0].serial, Timeout, now) {
          assert table[0] in table;
        }
      }
    }
  }

  // ----- what is sent again -----

  /** An entry for each transaction that is due, with the message it was started with, in their order. */
  function Resends(table: seq<Tx>, now: nat): seq<Entry>
  {
    if table == [] then []
    else
      var t := table[0];
      (if t.expires <= now && t.left > 0 then [Resent(t.serial, t.message)] else []) + Resends(table[1..], now)
  }

  /** What becomes of a transaction: one that is due waits anew, a CON twice as long. */
  predicate Advanced(t: Tx, t': Tx, now: nat)
  {
    if t.expires <= now && t.left > 0 then
      && t'.left == t.left - 1
      && t'.interval == (if t.kind.Con? then t.interval + t.interval else t.interval)
      && t'.expires == now + t'.interval
      && t' == t.(left := t'.left, interval := t'.interval, expires := t'.expires)
    else t' == t
  }

  /** The loop so far: up to i the table is as it was, from there on it has advanced. */
  ghost predicate AdvancedFrom(was: seq<Tx>, table: seq<Tx>, i: nat, now: nat)
  {
    |table| == |was| && i <= |was| && table[..i] == was[..i] && forall j :: i <= j < |was| ==> Advanced(was[j], table[j], now)
  }

  lemma OneAdvanced(c: Client, i: nat, now: nat)
    requires i < |c.table|
    ensures var c1 := if Due(c.table[i], now) then Resend(c, i, now) else c;
            && |c1.table| == |c.table| && c1.table[..i] == c.table[..i] && c1.table[i + 1..] == c.table[i + 1..]
            && Advanced(c.table[i], c1.table[i], now)
            && c1.log + Resends(c.table[i + 1..], now) == c.log + Resends(c.table[i..], now)
  {
    var t, rest := c.table[i], c.table[i + 1..];
    assert c.table[i..] == [t] + rest && c.table[i..][1..] == rest;
  }

  lemma AdvancesOn(was: seq<Tx>, one: seq<Tx>, table: seq<Tx>, i: nat, now: nat)
    requires i < |was| && |one| == |was| && one[..i] == was[..i] && one[i + 1..] == was[i + 1..]
    requires Advanced(was[i], one[i], now) && AdvancedFrom(one, table, i + 1, now)
    ensures AdvancedFrom(was, table, i, now)
  {
    hide Advanced;
    assert table[..i] == table[..i + 1][..i] == one[..i + 1][..i] == one[..i];
    assert table[i] == table[..i + 1][i] == one[..i + 1][i] == one[i];
    forall j | i < j < |was| ensures Advanced(was[j], table[j], now) {
      assert one[j] == one[i + 1..][j - i - 1] == was[i + 1..][j - i - 1] == was[j];
    }
  }

  lemma {:induction false} ResendFrom(c: Client, i: nat, now: nat)
    requires i <= |c.table|
    ensures var r := ResendDue(c, i, now);
            && AdvancedFrom(c.table, r.table, i, now)
            && r.log == c.log + Resends(c.table[i..], now) && r.space == c.space && r.next == c.next
    decreases |c.table| - i
  {
    if i == |c.table| {
      assert c.log + [] == c.log;
    } else {
      var c1 := if Due(c.table[i], now) then Resend(c, i, now) else c;
      OneAdvanced(c, i, now);
      ResendFrom(c1, i + 1, now);
      AdvancesOn(c.table, c1.table, ResendDue(c1, i + 1, now).table, i, now);
    }
  }

  /**
   * One call of the timer: what is over goes, each transaction that is due is
   * sent again once, with its message, and advances; all others stay as they are.
   */
  lemma TriggerExactly(c: Client, now: nat)
    ensures var d, r := Alive(c.table, now), Do(c, Trigger, now);
            && |r.table| == |d| && (forall j :: 0 <= j < |d| ==> Advanced(d[j], r.table[j], now))
            && r.log == c.log + Timeouts(c.table, now) + Resends(d, now)
            && r.space + |r.table| == c.space + |c.table| && r.next == c.next
  {
    DropExpiredExactly(c, now);
    var d := DropExpired(c, 0, now);
    ResendFrom(d, 0, now);
    assert d.table[0..] == d.table;
  }

  /** A transaction with this serial number is to be sent again. */
  ghost predicate DueIn(table: seq<Tx>, now: nat, serial: nat)
  {
    exists t :: t in table && t.serial == serial && t.expires <= now && t.left > 0
  }

  ghost predicate DistinctSerials(table: seq<Tx>)
  {
    forall i, j :: 0 <= i < j < |table| ==> table[i].serial != table[j].serial
  }

  lemma FirstOrRest(table: seq<Tx>, now: nat, serial: nat)
    requires table != [] && DistinctSerials(table)
    ensures var t, rest := table[0], table[1..];
            && DistinctSerials(rest)
            && (DueIn(table, now, serial) <==> (t.serial == serial && t.expires <= now && t.left > 0) || DueIn(rest, now, serial))
            && (t.serial == serial ==> !DueIn(rest, now, serial))
  {
    var t, rest := table[0], table[1..];
    assert table == [t] + rest;
    forall u | u in rest ensures u.serial != t.serial {
      var j :| 0 <= j < |rest| && rest[j] == u;
      assert table[j + 1] == u;
    }
  }

  lemma {:induction false} ResendsOf(table: seq<Tx>, now: nat, serial: nat)
    requires DistinctSerials(table)
    ensures ResentCount(Resends(table, now), serial) == if DueIn(table, now, serial) then 1 else 0
    decreases |table|
  {
    if table != [] {
      var t, rest := table[0], table[1..];
      FirstOrRest(table, now, serial);
      hide DistinctSerials, DueIn;
      ResendsOf(rest, now, serial);
      var first := if t.expires <= now && t.left > 0 then [Resent(t.serial, t.message)] else [];
      CountJoins(first, Resends(rest, now), serial);
      assert [Resent(t.serial, t.message)][..0] == [];
    } else {
      assert !DueIn(table, now, serial);
    }
  }

  lemma {:induction false} CountJoins(a: seq<Entry>, b: seq<Entry>, serial: nat)
    ensures ResentCount(a + b, serial) == ResentCount(a, serial) + ResentCount(b, serial)
    decreases |b|
  {
    if b == [] {
      assert a + b == a;
    } else {
      CountJoins(a, b[..|b| - 1], serial);
      assert (a + b)[..|a + b| - 1] == a + b[..|b| - 1];
    }
  }

  lemma {:induction false} NoneIn(table: seq<Tx>, now: nat, serial: nat)
    ensures ResentCount(Timeouts(table, now), serial) == 0
    decreases |table|
  {
    if table != [] {
      NoneIn(table[1..], now, serial);
      var t := table[0];
      var first := if Over(t, now) && t.cb then [Told(t.serial, Timeout, now)] else [];
      CountJoins(first, Timeouts(table[1..], now), serial);
      assert [Told(t.serial, Timeout, now)][..0] == [];
    }
  }

  /** In every run the timer sends each transaction that is due again exactly once, and no other. */
  lemma ResentOnceIfDue(steps: seq<Step>, now: nat, serial: nat)
    requires ValidRun(steps)
    ensures ResentCount(Do(Run(steps), Trigger, now).log, serial)
         == ResentCount(Run(steps).log, serial) + if DueIn(Run(steps).table, now, serial) then 1 else 0
  {
    RunKeeps(steps);
    hide Run;
    DueOnce(Run(steps), now, serial);
  }

  lemma DueOnce(c: Client, now: nat, serial: nat)
    requires Inv(c)
    ensures ResentCount(Do(c, Trigger, now).log, serial) == ResentCount(c.log, serial) + if DueIn(c.table, now, serial) then 1 else 0
  {
    DropExpiredKeeps(c, 0, now);
    DropExpiredExactly(c, now);
    var d := Alive(c.table, now);
    assert DistinctSerials(d) && (DueIn(d, now, serial) <==> DueIn(c.table, now, serial));
    hide DropExpired, Inv, DueIn, DistinctSerials;
    TriggerExactly(c, now);
    ResendsOf(d, now, serial);
    NoneIn(c.table, now, serial);
    CountJoins(c.log, Timeouts(c.table, now), serial);
    CountJoins(c.log + Timeouts(c.table, now), Resends(d, now), serial);
  }

  // ----- answers -----

  /** The event that an arrival or a call stands for. */
  predicate Means(op: Op, event: Event)
  {
    || (op.Acked? && event == Ack) || (op.WasReset? && event == Rst) || (op.Cancel? && event == Canceled)
  }

  /**
   * In every run, an ACK, an RST or a cancellation under an id that is in flight
   * takes exactly that transaction out, and tells its callback, if it has one,
   * just this; under any other id nothing ends but what is over.
   */
  lemma AnsweredExactly(steps: seq<Step>, op: Op, event: Event, now: nat)
    requires ValidRun(steps) && ValidOp(op) && Means(op, event)
    ensures var c, d := Run(steps), Alive(Run(steps).table, now); var r := Do(c, op, now);
            && (forall t :: t in r.table <==> t in d && t.id != op.id)
            && (forall t :: t in d && t.id == op.id ==>
                  r.log == c.log + Timeouts(c.table, now) + if t.cb then [Told(t.serial, event, now)] else [])
            && ((forall t :: t in d ==> t.id != op.id) ==> r.log == c.log + Timeouts(c.table, now))
  {
    RunKeeps(steps);
    hide Run;
    var c := Run(steps);
    DropExpiredKeeps(c, 0, now);
    DropExpiredExactly(c, now);
    EndsExactly(DropExpired(c, 0, now), op.id, event, now);
    hide Inv, DropExpired, End;
  }

  lemma EndsExactly(d: Client, id: nat, event: Event, now: nat)
    requires Inv(d)
    ensures var i := Find(d.table, id); var r := if i < |d.table| then End(d, i, event, now) else d;
            && (forall t :: t in r.table <==> t in d.table && t.id != id)
            && (forall t :: t in d.table && t.id == id ==> r.log == d.log + if t.cb then [Told(t.serial, event, now)] else [])
            && ((forall t :: t in d.table ==> t.id != id) ==> r.log == d.log)
  {
    var table := d.table;
    assert forall j, k :: 0 <= j < k < |table| ==> table[j].id != table[k].id;
    hide TxInv, LogInv, Find;
    FoundIs(table, id);
    if Find(table, id) < |table| {
      WithoutId(table, Find(table, id));
    }
  }

  lemma WithoutId(table: seq<Tx>, i: nat)
    requires i < |table| && forall j, k :: 0 <= j < k < |table| ==> table[j].id != table[k].id
    ensures forall t :: t in Without(table, i) <==> t in table && t.id != table[i].id
  {
    var q, id := Without(table, i), table[i].id;
    WithoutElements(table, i);
    hide Without;
    forall t ensures t in q <==> t in table && t.id != id {
      if t in table && t.id != id {
        var j :| 0 <= j < |table| && table[j] == t;
        assert q[if j < i then j else j - 1] == t;
      }
    }
  }

  // ----- a message that is never answered -----

  lemma RunNext(before: seq<Step>, step: Step)
    requires ValidRun(before) && ValidOp(step.op)
    ensures ValidRun(before + [step]) && Run(before + [step]) == Do(Run(before), step.op, step.now)
  {
    assert (before + [step])[..|before|] == before;
  }

  /** A CON with a callback in flight, sent again k times so far. */
  ghost predicate Waiting(c: Client, t: Tx, k: nat)
  {
    Inv(c) && t in c.table && t.cb && t.kind.Con? && t.left == MAX_RETRANSMIT - k && ResentCount(c.log, t.serial) == k
  }

  lemma TimerAdvances(c: Client, t: Tx, now: nat) returns (t': Tx)
    requires t in c.table && t.left > 0 && t.expires <= now && t.kind.Con?
    ensures t' in Do(c, Trigger, now).table
    ensures t' == t.(left := t.left - 1, interval := 2 * t.interval, expires := now + 2 * t.interval)
  {
    TriggerExactly(c, now);
    AliveAre(c.table, now);
    hide Do, Advanced, Alive, Timeouts, Resends;
    var d, r := Alive(c.table, now), Do(c, Trigger, now);
    var j :| 0 <= j < |d| && d[j] == t;
    t' := r.table[j];
    AdvancedCon(t, t', now);
  }

  lemma TimerResends(c: Client, t: Tx, k: nat, now: nat) returns (t': Tx)
    requires Waiting(c, t, k) && k < MAX_RETRANSMIT && t.expires <= now
    ensures Waiting(Do(c, Trigger, now), t', k + 1)
    ensures t' == t.(left := t.left - 1, interval := 2 * t.interval, expires := now + 2 * t.interval)
  {
    hide Do, Inv, ResentCount;
    DoKeeps(c, Trigger, now);
    DueOnce(c, now, t.serial);
    assert DueIn(c.table, now, t.serial);
    t' := TimerAdvances(c, t, now);
  }

  lemma AdvancedCon(t: Tx, t': Tx, now: nat)
    requires Advanced(t, t', now) && t.expires <= now && t.left > 0 && t.kind.Con?
    ensures t' == t.(left := t.left - 1, interval := 2 * t.interval, expires := now + 2 * t.interval)
  {
  }

  lemma TimerGivesUp(c: Client, t: Tx, now: nat)
    requires Waiting(c, t, MAX_RETRANSMIT) && t.expires <= now
    ensures var r := Do(c, Trigger, now);
            Told(t.serial, Timeout, now) in r.log && !HasSerial(r.table, t.serial) && ResentCount(r.log, t.serial) == MAX_RETRANSMIT
  {
    TriggerExactly(c, now);
    TimeoutsAre(c.table, now);
    AliveAre(c.table, now);
    assert Over(t, now) && Told(t.serial, Timeout, now) in Timeouts(c.table, now);
    SerialIsHis(c, t);
    DueOnce(c, now, t.serial);
    var d, r := Alive(c.table, now), Do(c, Trigger, now);
    hide Do, Inv, Alive, Timeouts, Resends;
    forall u | u in r.table ensures u.serial != t.serial {
      var j :| 0 <= j < |r.table| && r.table[j] == u;
      assert Advanced(d[j], r.table[j], now);
      assert d[j] in d;
    }
  }

  lemma SerialIsHis(c: Client, t: Tx)
    requires Inv(c) && t in c.table
    ensures forall u :: u in c.table && u.serial == t.serial ==> u == t
  {
    var i :| 0 <= i < |c.table| && c.table[i] == t;
    forall u | u in c.table && u.serial == t.serial ensures u == t {
      var j :| 0 <= j < |c.table| && c.table[j] == u;
      assert !(i < j) && !(j < i);
    }
  }

  /** A CON as it is saved. */
  function Saved(serial: nat, id: nat, message: bytes, random: nat, now: nat): Tx
  {
    var first := 5000 + random;
    Tx(serial, id, Con, now + first, first, 3, message, true, now, first, 3)
  }

  lemma SavedAs(c: Client, id: nat, message: bytes, random: nat, now: nat)
    requires random < RANDOM_SPAN
    requires var d := DropExpired(c, 0, now); d.space != 0 && forall u :: u in d.table ==> u.id != id
    ensures var d, r := DropExpired(c, 0, now), Do(c, SendCon(id, message, true, random), now);
            var t := Saved(d.next, id, message, random, now);
            r.table == d.table + [t] && r.log == d.log + [Started(t)]
  {
    hide DropExpired, Put, Do;
    Saves(c, NewCon(id, message, true, random, now), now);
    SendPuts(c, id, message, random, now);
  }

  lemma WaitsFromNow(d: Client, r: Client, t: Tx)
    requires Inv(d) && Inv(r) && r.table == d.table + [t] && r.log == d.log + [Started(t)]
    requires t.serial == d.next && t.cb && t.kind.Con? && t.left == MAX_RETRANSMIT
    ensures Waiting(r, t, 0)
  {
    hide Inv;
    NothingBefore(d);
    CountNext(d.log, Started(t), d.next);
    assert t in d.table + [t];
  }

  /** It waits for its answer. */
  lemma SavedWaits(c: Client, id: nat, message: bytes, random: nat, now: nat)
    requires Inv(c) && random < RANDOM_SPAN && c.space + |c.table| == NSTART
    requires |Alive(c.table, now)| < NSTART && forall t :: t in Alive(c.table, now) ==> t.id != id
    ensures Waiting(Do(c, SendCon(id, message, true, random), now), Saved(c.next, id, message, random, now), 0)
  {
    hide Inv, DropExpired, Alive, Do, Waiting;
    DropExpiredExactly(c, now);
    DropExpiredKeeps(c, 0, now);
    DoKeeps(c, SendCon(id, message, true, random), now);
    SavedAs(c, id, message, random, now);
    WaitsFromNow(DropExpired(c, 0, now), Do(c, SendCon(id, message, true, random), now), Saved(c.next, id, message, random, now));
  }

  lemma Saves(c: Client, t: Tx, now: nat)
    requires var d := DropExpired(c, 0, now); d.space != 0 && forall u :: u in d.table ==> u.id != t.id
    ensures var d, t' := DropExpired(c, 0, now), t.(serial := DropExpired(c, 0, now).next);
            Put(c, t, now) == (d.(table := d.table + [t'], space := d.space - 1, log := d.log + [Started(t')],
                                  next := d.next + 1), true)
  {
    hide DropExpired;
    var d := DropExpired(c, 0, now);
    NoneFound(d.table, t.id);
    hide Find;
  }

  lemma NoneFound(table: seq<Tx>, id: nat)
    requires forall u :: u in table ==> u.id != id
    ensures Find(table, id) == |table|
  {
    hide Find;
    assert forall j :: 0 <= j < |table| ==> table[j] in table;
  }

  lemma SendPuts(c: Client, id: nat, message: bytes, random: nat, now: nat)
    requires random < RANDOM_SPAN && Put(c, NewCon(id, message, true, random, now), now).1
    ensures Do(c, SendCon(id, message, true, random), now) == Put(c, NewCon(id, message, true, random, now), now).0
  {
    hide Put;
  }

  lemma NothingBefore(c: Client)
    requires Inv(c)
    ensures ResentCount(c.log, c.next) == 0
  {
    NothingOf(c.log, c.next);
  }

  /** A message sent, and four calls of the timer. */
  function Unanswered(id: nat, message: bytes, random: nat, t0: nat, ts: seq<nat>): seq<Step>
    requires |ts| == 4
  {
    [Step(SendCon(id, message, true, random), t0), Step(Trigger, ts[0]), Step(Trigger, ts[1]), Step(Trigger, ts[2]),
     Step(Trigger, ts[3])]
  }

  /** Each call of the timer comes when the transaction is due, or later. */
  predicate AtEachExpiry(t0: nat, first: nat, ts: seq<nat>)
  {
    |ts| == 4 && ts[0] >= t0 + first && ts[1] >= ts[0] + 2 * first && ts[2] >= ts[1] + 4 * first && ts[3] >= ts[2] + 8 * first
  }

  /**
   * After any run, a CON with a callback that is saved and never answered, with
   * the timer called at each expiry, is sent again exactly MAX_RETRANSMIT times
   * and then ends with a Timeout.
   */
  lemma UnansweredTimesOut(before: seq<Step>, id: nat, message: bytes, random: nat, t0: nat, ts: seq<nat>)
    requires ValidRun(before) && random < RANDOM_SPAN && AtEachExpiry(t0, 5000 + random, ts)
    requires var d := Alive(Run(before).table, t0); |d| < NSTART && forall t :: t in d ==> t.id != id
    ensures var steps, serial := before + Unanswered(id, message, random, t0, ts), Run(before).next;
            && ValidRun(steps)
            && var c := Run(steps);
               && ResentCount(c.log, serial) == MAX_RETRANSMIT && Told(serial, Timeout, ts[3]) in c.log
               && !HasSerial(c.table, serial)
  {
    hide Run, Do, Waiting, Inv, Alive;
    var u := Unanswered(id, message, random, t0, ts);
    RunKeeps(before);
    var c0 := Run(before);
    SpaceOf(c0);
    SavedWaits(c0, id, message, random, t0);
    var t := Saved(c0.next, id, message, random, t0);
    var s1 := before + [u[0]];
    RunNext(before, u[0]);
    var a := TimerResends(Run(s1), t, 0, ts[0]);
    var s2 := s1 + [u[1]];
    RunNext(s1, u[1]);
    var b := TimerResends(Run(s2), a, 1, ts[1]);
    var s3 := s2 + [u[2]];
    RunNext(s2, u[2]);
    var d := TimerResends(Run(s3), b, 2, ts[2]);
    var s4 := s3 + [u[3]];
    RunNext(s3, u[3]);
    TimerGivesUp(Run(s4), d, ts[3]);
    RunNext(s4, u[4]);
    assert s4 + [u[4]] == before + u;
  }

  lemma SpaceOf(c: Client)
    requires Inv(c)
    ensures c.space + |c.table| == NSTART
  {
  }

  // ----- messages sent at a probing rate -----

  /** It waits as long as its message takes at the rate, and has left as many repetitions as fit into the span. */
  predicate IsProbe(t: Tx, id: nat, message: bytes, rate: nat, span: nat, now: nat)
  {
    && t.id == id && t.kind.Non? && t.message == message && !t.cb && t.expires == now + t.interval
    && t.interval * rate <= 1000 * |message| < (t.interval + 1) * rate
    && t.left * t.interval <= 1000 * span < (t.left + 1) * t.interval
  }

  lemma NewProbe(id: nat, message: bytes, rate: nat, span: nat, now: nat, serial: nat)
    requires rate > 0 && |message| * 1000 / rate > 0
    ensures IsProbe(NewNon(id, message, rate, span, now).(serial := serial), id, message, rate, span, now)
  {
    var t := NewNon(id, message, rate, span, now);
    Quotients(|message| * 1000, rate);
    Quotients(span * 1000, t.interval);
  }

  /** After any run, a NON with an id that is not in flight is saved behind the others, if there is room. */
  lemma ProbeSaved(steps: seq<Step>, id: nat, message: bytes, rate: nat, span: nat, now: nat)
    requires ValidRun(steps) && rate > 0 && |message| * 1000 / rate > 0
    requires var d := Alive(Run(steps).table, now); |d| < NSTART && forall t :: t in d ==> t.id != id
    ensures var table, d := Do(Run(steps), SendNon(id, message, rate, span), now).table, Alive(Run(steps).table, now);
            |table| == |d| + 1 && table[..|d|] == d && IsProbe(table[|d|], id, message, rate, span, now)
  {
    hide Run, Inv, DropExpired, Alive, Put, IsProbe, NewNon, Do;
    RunKeeps(steps);
    var c := Run(steps);
    SpaceOf(c);
    DropExpiredExactly(c, now);
    NewProbe(id, message, rate, span, now, DropExpired(c, 0, now).next);
    IdOf(id, message, rate, span, now);
    Saves(c, NewNon(id, message, rate, span, now), now);
    SendProbes(c, id, message, rate, span, now);
  }

  lemma IdOf(id: nat, message: bytes, rate: nat, span: nat, now: nat)
    requires rate > 0 && |message| * 1000 / rate > 0
    ensures NewNon(id, message, rate, span, now).id == id
  {
  }

  lemma SendProbes(c: Client, id: nat, message: bytes, rate: nat, span: nat, now: nat)
    requires rate > 0 && |message| * 1000 / rate > 0 && Put(c, NewNon(id, message, rate, span, now), now).1
    ensures Do(c, SendNon(id, message, rate, span), now) == Put(c, NewNon(id, message, rate, span, now), now).0
  {
    hide Put;
  }

  lemma Quotients(a: nat, b: nat)
    requires b > 0
    ensures a / b * b <= a < (a / b + 1) * b
  {
  }

  /**
   * In every run, a NON in flight was sent again as often as its count has gone
   * down, and waits the same interval each time: the time its message takes at the
   * rate, while the count it began with is how often that fits into the span.
   */
  lemma ProbesInEveryRun(steps: seq<Step>, i: nat)
    requires ValidRun(steps) && i < |Run(steps).table| && Run(steps).table[i].kind.Non?
    ensures var c, t := Run(steps), Run(steps).table[i];
            t.interval == t.first && ResentCount(c.log, t.serial) == t.total - t.left && !t.cb && StartedAs(c.log, t)
  {
    RunKeeps(steps);
    assert TxInv(Run(steps).table[i], Run(steps).log, Run(steps).next);
  }
}
