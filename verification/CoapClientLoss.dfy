/**
 * Which client transactions end without their callback being called: the ones
 * that are dropped under their message id when another message cannot be saved
 * or sent (CoAPPeer.cpp).
 */
module CoapClientLoss {
  import opened Bytes
  import opened CoapClient

  ghost predicate HasSerial(table: seq<Tx>, serial: nat) { exists t :: t in table && t.serial == serial }

  /** The transaction is gone, and its callback was not called. */
  ghost predicate Lost(c: Client, serial: nat) { !HasSerial(c.table, serial) && Quiet(c.log, serial) }

  // ----- what each operation leaves in the table -----

  lemma {:induction false} DropIdLeaves(c: Client, i: nat, id: nat)
    requires i <= |c.table|
    ensures DropId(c, i, id).log == c.log
    ensures forall t :: t in DropId(c, i, id).table <==> t in c.table[..i] || (t in c.table[i..] && t.id != id)
    decreases |c.table| - i
  {
    if i < |c.table| {
      var t := c.table[i];
      assert c.table[i..] == [t] + c.table[i + 1..];
      if t.id == id {
        var d := Drop(c, i);
        DropIdLeaves(d, i, id);
        assert d.table[..i] == c.table[..i] && d.table[i..] == c.table[i + 1..];
      } else {
        DropIdLeaves(c, i + 1, id);
        assert c.table[..i + 1] == c.table[..i] + [t];
      }
    } else {
      assert c.table[..i] == c.table;
    }
  }

  lemma DropIdAll(c: Client, id: nat)
    ensures DropId(c, 0, id).log == c.log
    ensures forall t :: t in DropId(c, 0, id).table <==> t in c.table && t.id != id
  {
    DropIdLeaves(c, 0, id);
    assert c.table[0..] == c.table;
  }

  lemma {:induction false} DropExpiredSubset(c: Client, i: nat, now: nat)
    ensures forall t :: t in DropExpired(c, i, now).table ==> t in c.table
    decreases |c.table| - i
  {
    if i < |c.table| {
      if Over(c.table[i], now) {
        DropExpiredSubset(End(c, i, Timeout, now), i, now);
      } else {
        DropExpiredSubset(c, i + 1, now);
      }
    }
  }

  lemma {:induction false} ResendDueSerials(c: Client, i: nat, now: nat, serial: nat)
    requires HasSerial(c.table, serial)
    ensures HasSerial(ResendDue(c, i, now).table, serial)
    decreases |c.table| - i
  {
    if i < |c.table| {
      if Due(c.table[i], now) {
        ResendSerial(c, i, now, serial);
        ResendDueSerials(Resend(c, i, now), i + 1, now, serial);
      } else {
        ResendDueSerials(c, i + 1, now, serial);
      }
    }
  }

  lemma ResendSerial(c: Client, i: nat, now: nat, serial: nat)
    requires i < |c.table| && HasSerial(c.table, serial)
    ensures HasSerial(Resend(c, i, now).table, serial)
  {
    var t :| t in c.table && t.serial == serial;
    var j :| 0 <= j < |c.table| && c.table[j] == t;
    assert Resend(c, i, now).table[j].serial == serial;
  }

  /** Dropping an id loses exactly the transaction that has it. */
  lemma DropIdLoses(c: Client, id: nat, t: Tx)
    requires Inv(c) && t in c.table
    ensures Lost(DropId(c, 0, id), t.serial) <==> id == t.id
  {
    DropIdAll(c, id);
    hide DropId;
    var i :| 0 <= i < |c.table| && c.table[i] == t;
    TxQuiet(t, c.log, c.next);
    hide TxInv, LogInv;
    forall u | u in c.table && u.serial == t.serial ensures u == t {
      var j :| 0 <= j < |c.table| && c.table[j] == u;
      assert !(i < j) && !(j < i);
    }
  }

  lemma EndTells(c: Client, i: nat, event: Event, now: nat, t: Tx)
    requires Inv(c) && i < |c.table| && t in c.table && t.cb
    ensures !Lost(End(c, i, event, now), t.serial)
  {
    var c' := End(c, i, event, now);
    if c.table[i] == t {
      assert c'.log[|c.log|] == Told(t.serial, event, now);
    } else {
      var j :| 0 <= j < |c.table| && c.table[j] == t;
      WithoutElements(c.table, i);
      assert c'.table[if j < i then j else j - 1] == t;
    }
  }

  lemma FinishTells(c: Client, id: nat, event: Event, now: nat, t: Tx)
    requires Inv(c) && t in DropExpired(c, 0, now).table && t.cb
    ensures !Lost(Finish(c, id, event, now), t.serial)
  {
    DropExpiredKeeps(c, 0, now);
    var d := DropExpired(c, 0, now);
    hide DropExpired, Inv, End;
    var i := Find(d.table, id);
    if i < |d.table| {
      EndTells(d, i, event, now, t);
    }
  }

  /** A message that is saved leaves all others; one that is not takes the one with its id along. */
  lemma SentLoses(c: Client, new': Tx, now: nat, t: Tx)
    requires Inv(c) && t in DropExpired(c, 0, now).table
    ensures Lost(Sent(Put(c, new', now), new'.id), t.serial) <==> new'.id == t.id
  {
    DropExpiredKeeps(c, 0, now);
    var d := DropExpired(c, 0, now);
    hide DropExpired, Inv, DropId;
    if Find(d.table, new'.id) < |d.table| || d.space == 0 {
      DropIdLoses(d, new'.id, t);
    } else {
      assert t in d.table + [new'.(serial := d.next)];
    }
  }

  // ----- in every run -----

  /**
   * In every run, a transaction that has not expired and has a callback is lost
   * by an operation exactly if that operation tries to send under its message
   * id, or fails to.
   */
  lemma LostExactlyUnderItsId(steps: seq<Step>, op: Op, now: nat, t: Tx)
    requires ValidRun(steps) && ValidOp(op) && t in DropExpired(Run(steps), 0, now).table && t.cb
    ensures Lost(Do(Run(steps), op, now), t.serial)
            <==> (op.SendCon? || op.SendNon? || op.Unsent?) && op.id == t.id
  {
    RunKeeps(steps);
    var c := Run(steps);
    DropExpiredSubset(c, 0, now);
    hide Run, Inv, Put, DropId, DropExpired, Finish, Lost, ResendDue, Sent;
    match op
    case SendCon(id, message, cb, random) => SentLoses(c, NewCon(id, message, cb, random, now), now, t);
    case SendNon(id, message, rate, span) => SentLoses(c, NewNon(id, message, rate, span, now), now, t);
    case Unsent(id) => DropIdLoses(c, id, t);
    case Acked(id) => FinishTells(c, id, Ack, now, t);
    case WasReset(id) => FinishTells(c, id, Rst, now, t);
    case Cancel(id) => FinishTells(c, id, Canceled, now, t);
    case Trigger =>
      ResendDueSerials(DropExpired(c, 0, now), 0, now, t.serial);
      StillThere(ResendDue(DropExpired(c, 0, now), 0, now), t.serial);
  }

  lemma StillThere(c: Client, serial: nat)
    requires HasSerial(c.table, serial)
    ensures !Lost(c, serial)
  {
  }

  /** What a caller can look up beforehand: whether the id of the message is in flight, with a callback. */
  lemma SendLosesIfInFlight(steps: seq<Step>, op: Op, now: nat)
    requires ValidRun(steps) && ValidOp(op) && (op.SendCon? || op.SendNon?)
    ensures var table := DropExpired(Run(steps), 0, now).table;
            (exists t :: t in table && t.cb && Lost(Do(Run(steps), op, now), t.serial))
            <==> Find(table, op.id) < |table| && table[Find(table, op.id)].cb
  {
    RunKeeps(steps);
    DropExpiredKeeps(Run(steps), 0, now);
    var table := DropExpired(Run(steps), 0, now).table;
    forall t | t in table && t.cb ensures Lost(Do(Run(steps), op, now), t.serial) <==> op.id == t.id {
      LostExactlyUnderItsId(steps, op, now, t);
    }
    assert forall j, k :: 0 <= j < k < |table| ==> table[j].id != table[k].id;
    hide Do, Run, DropExpired, Lost, Inv;
    FoundIs(table, op.id);
  }

  /** With distinct ids, what is found under an id is the one that has it. */
  lemma FoundIs(table: seq<Tx>, id: nat)
    requires forall j, k :: 0 <= j < k < |table| ==> table[j].id != table[k].id
    ensures var i := Find(table, id);
            && (i < |table| ==> table[i] in table)
            && forall t :: t in table && t.id == id ==> i < |table| && t == table[i]
  {
    var i := Find(table, id);
    hide Find;
    forall t | t in table && t.id == id ensures i < |table| && t == table[i] {
      var j :| 0 <= j < |table| && table[j] == t;
      assert !(i < j) && !(j < i);
    }
  }

  /** Sending twice under one id: nothing is in flight any more, and no callback was called. */
  lemma SendingTwiceLosesBoth(message: bytes)
    ensures var c := Run([Step(SendCon(1, message, true, 0), 0), Step(SendCon(1, message, true, 0), 1)]);
            c.table == [] && |c.log| == 1 && c.log[0].Started? && c.log[0].tx.cb
  {
    var s1, s2 := Step(SendCon(1, message, true, 0), 0), Step(SendCon(1, message, true, 0), 1);
    var two := [s1, s2];
    assert two[..1] == [s1] && [s1][..0] == [];
    var t := NewCon(1, message, true, 0, 0);
    assert ValidRun([]) && Run([]) == Fresh();
    var a := Run([s1]);
    assert a == Sent(Put(Fresh(), t, 0), 1);
    assert a.table == [t] && a.log == [Started(t)];
    FoundAlone(t);
    OnlyDropped(a, t, 1);
    assert Run(two) == Sent(Put(a, NewCon(1, message, true, 0, 1), 1), 1);
  }

  lemma FoundAlone(t: Tx)
    ensures Find([t], t.id) == 0
  {
    assert [t][..0] == [];
  }

  lemma OnlyDropped(c: Client, t: Tx, now: nat)
    requires c.table == [t] && !Over(t, now)
    ensures DropExpired(c, 0, now) == c
    ensures DropId(c, 0, t.id).table == [] && DropId(c, 0, t.id).log == c.log
  {
    assert DropExpired(c, 1, now) == c;
    assert Drop(c, 0).table == [];
  }
}
