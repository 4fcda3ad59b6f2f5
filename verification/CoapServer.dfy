/**
 * The server transactions of a CoAP peer: detection of duplicates and the reply
 * that is repeated for them (CoAPPeer.cpp; section 4.5 of RFC 7252).
 */
module CoapServer {
  import opened Bytes

  const NSYNC := 128

  // EXCHANGE_LIFETIME * 1000; NON_LIFETIME has no parentheses, so that only MAX_LATENCY is multiplied: 52.5 + 30000
  const EXCHANGE_MS := 114500
  const NON_MS := 30052

  /** coap_server_transaction_t; without a reply ackRst is empty. */
  datatype Tx = Tx(id: nat, con: bool, expires: nat, ackRst: bytes)

  /** What happened, in order. */
  datatype Entry = Saved(id: nat) | Expired(id: nat, expires: nat, at: nat) | Evicted(id: nat) | Handled(id: nat)
                 | Stored(id: nat, reply: bytes) | Sent(reply: bytes) | Repeated(id: nat, reply: bytes)

  datatype Server = Server(space: int, table: seq<Tx>, log: seq<Entry>)

  function Fresh(): Server { Server(NSYNC, [], []) }

  function Note(s: Server, e: Entry): Server { s.(log := s.log + [e]) }

  // ----- the operations -----

  /** Removes the head of the list. */
  function Pop(s: Server, e: Entry): Server
    requires s.table != []
  {
    s.(table := s.table[1..], space := s.space + 1, log := s.log + [e])
  }

  /** dropExpiredServerTransactions looks at the head only. */
  function DropExpired(s: Server, now: nat): Server
    decreases |s.table|
  {
    if s.table == [] || s.table[0].expires > now then s
    else DropExpired(Pop(s, Expired(s.table[0].id, s.table[0].expires, now)), now)
  }

  function Find(table: seq<Tx>, id: nat): (i: nat)
    ensures i <= |table| && (i < |table| ==> table[i].id == id)
    ensures forall j :: 0 <= j < i ==> table[j].id != id
  {
    if table == [] then 0
    else if table[0].id == id then 0 else Find(table[1..], id) + 1
  }

  /** WL_INSERT_SORT of an element whose expires is still 0: before the first with a greater one. */
  function Place(table: seq<Tx>): (i: nat)
    ensures i <= |table|
  {
    if table == [] || table[0].expires > 0 then 0 else Place(table[1..]) + 1
  }

  function Insert(table: seq<Tx>, t: Tx): seq<Tx>
  {
    table[..Place(table)] + [t] + table[Place(table)..]
  }

  function Lifetime(con: bool): nat { if con then EXCHANGE_MS else NON_MS }

  /** putServerTransaction: when the list is full its head makes room. */
  function Put(s: Server, id: nat, con: bool, now: nat): Server
  {
    var s1 := DropExpired(s, now);
    if Find(s1.table, id) < |s1.table| || (s1.space == 0 && s1.table == []) then s1
    else
      var s2 := if s1.space == 0 then Pop(s1, Evicted(s1.table[0].id)) else s1;
      s2.(table := Insert(s2.table, Tx(id, con, now + Lifetime(con), [])), space := s2.space - 1,
          log := s2.log + [Saved(id)])
  }

  /** setServerTransactionReply */
  function SetReply(s: Server, id: nat, reply: bytes, now: nat): Server
  {
    var s1 := DropExpired(s, now);
    var i := Find(s1.table, id);
    if i < |s1.table| then s1.(table := s1.table[i := s1.table[i].(ackRst := reply)], log := s1.log + [Stored(id, reply)])
    else s1
  }

  /** sendUnreliably for an ACK or RST */
  function Reply(s: Server, id: nat, reply: bytes, now: nat): Server
  {
    Note(SetReply(s, id, reply, now), Sent(reply))
  }

  datatype FollowUp = DoNothing | SendAck | SendRst

  /** An empty ACK or RST, version 1. */
  function EmptyReply(rst: bool, id: nat): bytes { [if rst then 112 else 96, 0] + PutBE(id, 2) }

  /** A CON or NON that reached decoding: whether it is empty, whether its code has a handler, what that returns. */
  datatype Arrival = Arrival(id: nat, con: bool, empty: bool, handled: bool, followUp: FollowUp)

  /** handleRx for a CON or NON */
  function Receive(s: Server, a: Arrival, now: nat): Server
  {
    if a.empty then if a.con then Reply(s, a.id, EmptyReply(true, a.id), now) else s
    else
      var s1 := DropExpired(s, now);
      var i := Find(s1.table, a.id);
      if i < |s1.table| then
        if s1.table[i].ackRst != [] then Note(s1, Repeated(a.id, s1.table[i].ackRst)) else s1
      else
        var s2 := Put(s1, a.id, a.con, now);
        if !a.handled then s2
        else
          var s3 := Note(s2, Handled(a.id));
          if !a.con || a.followUp.DoNothing? then s3
          else Reply(s3, a.id, EmptyReply(a.followUp.SendRst?, a.id), now)
  }

  datatype Op = Comes(a: Arrival) | Answers(id: nat, reply: bytes)

  function Do(s: Server, op: Op, now: nat): Server
  {
    match op
    case Comes(a) => Receive(s, a, now)
    case Answers(id, reply) => Reply(s, id, reply, now)
  }

  // ----- what the log says about a message id -----

  /** The last entries say that a transaction with this id is there. */
  function Live(log: seq<Entry>, id: nat): bool
  {
    if log == [] then false
    else
      match log[|log| - 1]
      case Saved(i) => i == id || Live(log[..|log| - 1], id)
      case Expired(i, _, _) => i != id && Live(log[..|log| - 1], id)
      case Evicted(i) => i != id && Live(log[..|log| - 1], id)
      case _ => Live(log[..|log| - 1], id)
  }

  /** The reply stored last for the transaction that is there. */
  function ReplyOf(log: seq<Entry>, id: nat): bytes
  {
    if log == [] then []
    else
      var e := log[|log| - 1];
      if e.Saved? && e.id == id then []
      else if e.Stored? && e.id == id then e.reply
      else ReplyOf(log[..|log| - 1], id)
  }

  lemma LogNext(log: seq<Entry>, e: Entry, id: nat)
    ensures Live(log + [e], id) == match e
                                   case Saved(i) => i == id || Live(log, id)
                                   case Expired(i, _, _) => i != id && Live(log, id)
                                   case Evicted(i) => i != id && Live(log, id)
                                   case _ => Live(log, id)
    ensures ReplyOf(log + [e], id) == if e.Saved? && e.id == id then []
                                      else if e.Stored? && e.id == id then e.reply else ReplyOf(log, id)
  {
    assert (log + [e])[..|log|] == log;
  }

  ghost predicate HasId(table: seq<Tx>, id: nat) { exists i :: 0 <= i < |table| && table[i].id == id }

  ghost predicate Distinct(table: seq<Tx>) { forall i, j :: 0 <= i < j < |table| ==> table[i].id != table[j].id }

  /** The table is what the log says it is. */
  ghost predicate Matches(table: seq<Tx>, log: seq<Entry>)
  {
    && Distinct(table)
    && (forall id :: HasId(table, id) <==> Live(log, id))
    && (forall i :: 0 <= i < |table| ==> table[i].ackRst == ReplyOf(log, table[i].id))
  }

  ghost predicate EntryOk(log: seq<Entry>, j: nat)
    requires j < |log|
  {
    match log[j]
    case Saved(id) => !Live(log[..j], id)
    case Handled(id) => j > 0 && log[j - 1] == Saved(id)
    case Repeated(id, reply) => Live(log[..j], id) && reply == ReplyOf(log[..j], id) && reply != []
    case Expired(id, expires, at) => Live(log[..j], id) && expires <= at
    case Evicted(id) => Live(log[..j], id)
    case _ => true
  }

  ghost predicate LogOk(log: seq<Entry>) { forall j :: 0 <= j < |log| ==> EntryOk(log, j) }

  ghost predicate Inv(s: Server)
  {
    && s.space >= 0 && s.space + |s.table| == NSYNC
    && Matches(s.table, s.log) && LogOk(s.log)
    && forall i :: 0 <= i < |s.table| ==> s.table[i].expires > 0
  }

  // ----- each step keeps it -----

  lemma LogOkNext(log: seq<Entry>, e: Entry)
    requires LogOk(log) && EntryOk(log + [e], |log|)
    ensures LogOk(log + [e])
  {
    var l := log + [e];
    forall j | 0 <= j < |l| ensures EntryOk(l, j) {
      if j < |log| {
        assert EntryOk(log, j);
        assert l[..j] == log[..j];
      }
    }
  }

  /** An entry that is neither about saving nor about removing nor about a reply. */
  lemma NoteKeeps(s: Server, e: Entry)
    requires Inv(s) && EntryOk(s.log + [e], |s.log|) && (e.Handled? || e.Sent? || e.Repeated?)
    ensures Inv(Note(s, e))
  {
    LogOkNext(s.log, e);
    hide EntryOk;
    forall id ensures Live(s.log + [e], id) == Live(s.log, id) && ReplyOf(s.log + [e], id) == ReplyOf(s.log, id) {
      LogNext(s.log, e, id);
    }
  }

  lemma HeadOf(table: seq<Tx>)
    requires table != [] && Distinct(table)
    ensures Distinct(table[1..]) && HasId(table, table[0].id)
    ensures forall id :: HasId(table[1..], id) <==> HasId(table, id) && id != table[0].id
  {
    forall id ensures HasId(table[1..], id) <==> HasId(table, id) && id != table[0].id {
      if HasId(table, id) && id != table[0].id {
        var i :| 0 <= i < |table| && table[i].id == id;
        assert table[1..][i - 1].id == id;
      }
      if HasId(table[1..], id) {
        var i :| 0 <= i < |table[1..]| && table[1..][i].id == id;
        assert table[i + 1].id == id;
      }
    }
  }

  lemma PopKeeps(s: Server, e: Entry)
    requires Inv(s) && s.table != []
    requires e == Evicted(s.table[0].id)
             || (e.Expired? && e.id == s.table[0].id && e.expires == s.table[0].expires && e.expires <= e.at)
    ensures Inv(Pop(s, e))
  {
    HeadOf(s.table);
    assert (s.log + [e])[..|s.log|] == s.log;
    LogOkNext(s.log, e);
    hide EntryOk, HasId;
    forall id ensures Live(s.log + [e], id) == (Live(s.log, id) && id != s.table[0].id)
                   && ReplyOf(s.log + [e], id) == ReplyOf(s.log, id) {
      LogNext(s.log, e, id);
    }
  }

  lemma {:induction false} DropExpiredKeeps(s: Server, now: nat)
    requires Inv(s)
    ensures Inv(DropExpired(s, now))
    decreases |s.table|
  {
    if s.table != [] && s.table[0].expires <= now {
      var e := Expired(s.table[0].id, s.table[0].expires, now);
      PopKeeps(s, e);
      DropExpiredKeeps(Pop(s, e), now);
    }
  }

  /** Inserted before its expiry is set, every new transaction becomes the head. */
  lemma InsertsAtHead(s: Server, t: Tx)
    requires Inv(s)
    ensures Insert(s.table, t) == [t] + s.table
  {
    assert s.table[..0] + [t] + s.table[0..] == [t] + s.table;
  }

  lemma NotFound(table: seq<Tx>, id: nat)
    requires Find(table, id) == |table|
    ensures !HasId(table, id)
  {
  }

  /** A new transaction at the head. */
  lemma SaveKeeps(s: Server, t: Tx)
    requires Inv(s) && s.space > 0 && !HasId(s.table, t.id) && t.ackRst == [] && t.expires > 0
    ensures Inv(s.(table := [t] + s.table, space := s.space - 1, log := s.log + [Saved(t.id)]))
  {
    var e, table := Saved(t.id), [t] + s.table;
    assert (s.log + [e])[..|s.log|] == s.log;
    LogOkNext(s.log, e);
    hide EntryOk;
    assert table[1..] == s.table && table[0] == t;
    forall id ensures Live(s.log + [e], id) == (id == t.id || Live(s.log, id))
                   && ReplyOf(s.log + [e], id) == (if id == t.id then [] else ReplyOf(s.log, id)) {
      LogNext(s.log, e, id);
    }
    forall i | 0 <= i < |s.table| ensures s.table[i].id != t.id {
      assert HasId(s.table, s.table[i].id);
    }
    assert Distinct(table);
    HeadOf(table);
    hide HasId;
  }

  lemma PutKeeps(s: Server, id: nat, con: bool, now: nat)
    requires Inv(s)
    ensures Inv(Put(s, id, con, now))
  {
    DropExpiredKeeps(s, now);
    var s1 := DropExpired(s, now);
    hide DropExpired;
    if Find(s1.table, id) == |s1.table| && !(s1.space == 0 && s1.table == []) {
      NotFound(s1.table, id);
      var s2 := s1;
      if s1.space == 0 {
        PopKeeps(s1, Evicted(s1.table[0].id));
        HeadOf(s1.table);
        s2 := Pop(s1, Evicted(s1.table[0].id));
      }
      var t := Tx(id, con, now + Lifetime(con), []);
      InsertsAtHead(s2, t);
      SaveKeeps(s2, t);
    }
  }

  lemma StoreKeeps(s: Server, i: nat, reply: bytes)
    requires Inv(s) && i < |s.table|
    ensures Inv(s.(table := s.table[i := s.table[i].(ackRst := reply)], log := s.log + [Stored(s.table[i].id, reply)]))
  {
    var e, table := Stored(s.table[i].id, reply), s.table[i := s.table[i].(ackRst := reply)];
    assert forall k :: 0 <= k < |table| ==> table[k].id == s.table[k].id;
    LogOkNext(s.log, e);
    hide EntryOk;
    forall id ensures Live(s.log + [e], id) == Live(s.log, id)
                   && ReplyOf(s.log + [e], id) == (if id == e.id then reply else ReplyOf(s.log, id)) {
      LogNext(s.log, e, id);
    }
    forall id ensures HasId(table, id) <==> HasId(s.table, id) {
      if HasId(s.table, id) {
        var k :| 0 <= k < |s.table| && s.table[k].id == id;
        assert table[k].id == id;
      }
    }
    hide HasId;
  }

  lemma ReplyKeeps(s: Server, id: nat, reply: bytes, now: nat)
    requires Inv(s)
    ensures Inv(Reply(s, id, reply, now))
  {
    DropExpiredKeeps(s, now);
    var s1 := DropExpired(s, now);
    var i := Find(s1.table, id);
    hide DropExpired;
    if i < |s1.table| {
      StoreKeeps(s1, i, reply);
    }
    NoteKeeps(SetReply(s, id, reply, now), Sent(reply));
  }

  lemma ReceiveKeeps(s: Server, a: Arrival, now: nat)
    requires Inv(s)
    ensures Inv(Receive(s, a, now))
  {
    hide Reply;
    if a.empty {
      ReplyKeeps(s, a.id, EmptyReply(true, a.id), now);
    } else {
      DropExpiredKeeps(s, now);
      var s1 := DropExpired(s, now);
      var i := Find(s1.table, a.id);
      hide DropExpired;
      if i < |s1.table| {
        RepeatOk(s1, i);
        if s1.table[i].ackRst != [] {
          NoteKeeps(s1, Repeated(a.id, s1.table[i].ackRst));
        }
      } else {
        var s2 := Put(s1, a.id, a.con, now);
        PutKeeps(s1, a.id, a.con, now);
        PutSaves(s, s1, a.id, a.con, now);
        NoteKeeps(s2, Handled(a.id));
        var s3 := Note(s2, Handled(a.id));
        ReplyKeeps(s3, a.id, EmptyReply(a.followUp.SendRst?, a.id), now);
      }
    }
  }

  lemma RepeatOk(s: Server, i: nat)
    requires Inv(s) && i < |s.table|
    ensures s.table[i].ackRst != [] ==>
              EntryOk(s.log + [Repeated(s.table[i].id, s.table[i].ackRst)], |s.log|)
  {
    assert (s.log + [Repeated(s.table[i].id, s.table[i].ackRst)])[..|s.log|] == s.log;
    assert HasId(s.table, s.table[i].id);
  }

  lemma {:induction false} DropExpiredStops(s: Server, now: nat)
    ensures var s1 := DropExpired(s, now); s1.table == [] || s1.table[0].expires > now
    ensures DropExpired(DropExpired(s, now), now) == DropExpired(s, now)
    decreases |s.table|
  {
    if s.table != [] && s.table[0].expires <= now {
      DropExpiredStops(Pop(s, Expired(s.table[0].id, s.table[0].expires, now)), now);
    }
  }

  /** With allocation assumed to succeed, an id that was not found is saved. */
  lemma PutSaves(s: Server, s1: Server, id: nat, con: bool, now: nat)
    requires Inv(s1) && s1 == DropExpired(s, now) && Find(s1.table, id) == |s1.table|
    ensures var s2 := Put(s1, id, con, now);
            s2.log != [] && s2.log[|s2.log| - 1] == Saved(id) && EntryOk(s2.log + [Handled(id)], |s2.log|)
  {
    DropExpiredStops(s, now);
    hide DropExpired;
  }

  // ----- whole runs -----

  datatype Step = Step(op: Op, now: nat)

  ghost function Run(steps: seq<Step>): Server
  {
    if steps == [] then Fresh()
    else Do(Run(steps[..|steps| - 1]), steps[|steps| - 1].op, steps[|steps| - 1].now)
  }

  lemma {:induction false} RunKeeps(steps: seq<Step>)
    ensures Inv(Run(steps))
    decreases |steps|
  {
    if steps != [] {
      RunKeeps(steps[..|steps| - 1]);
      var s, step := Run(steps[..|steps| - 1]), steps[|steps| - 1];
      hide Receive, Reply;
      match step.op
      case Comes(a) => ReceiveKeeps(s, a, step.now);
      case Answers(id, reply) => ReplyKeeps(s, id, reply, step.now);
    }
  }

  /** In every run the table has NSYNC places, each accounted for, and no two transactions with one id. */
  lemma TableInEveryRun(steps: seq<Step>)
    ensures var s := Run(steps); s.space >= 0 && s.space + |s.table| == NSYNC && Distinct(s.table)
  {
    RunKeeps(steps);
  }

  /** If the id was live and is not, it was removed in between. */
  lemma {:induction false} RemovedBetween(log: seq<Entry>, i: nat, j: nat, id: nat)
    requires i <= j <= |log| && Live(log[..i], id) && !Live(log[..j], id)
    ensures exists k :: i <= k < j && ((log[k].Expired? && log[k].id == id) || log[k] == Evicted(id))
    decreases j
  {
    if i < j {
      assert log[..j][..j - 1] == log[..j - 1];
      if Live(log[..j - 1], id) {
        assert log[..j][j - 1] == log[j - 1];
      } else {
        RemovedBetween(log, i, j - 1, id);
      }
    }
  }

  /**
   * Between two calls of a handler for the same message id, the transaction of
   * that id was dropped, after it had expired or to make room.
   */
  lemma HandledOncePerTransaction(steps: seq<Step>, i: nat, j: nat)
    requires i < j < |Run(steps).log| && Run(steps).log[i].Handled? && Run(steps).log[j] == Run(steps).log[i]
    ensures var log := Run(steps).log; var id := log[i].id;
            exists k :: i < k < j
                        && ((log[k].Expired? && log[k].id == id && log[k].expires <= log[k].at) || log[k] == Evicted(id))
  {
    RunKeeps(steps);
    var log, id := Run(steps).log, Run(steps).log[i].id;
    assert EntryOk(log, i) && EntryOk(log, j);
    assert EntryOk(log, i - 1) && EntryOk(log, j - 1);
    assert log[..i] == log[..i - 1] + [log[i - 1]];
    LogNext(log[..i - 1], log[i - 1], id);
    RemovedBetween(log, i, j - 1, id);
    var k :| i <= k < j - 1 && ((log[k].Expired? && log[k].id == id) || log[k] == Evicted(id));
    assert EntryOk(log, k);
  }

  lemma {:induction false} StoredBefore(log: seq<Entry>, j: nat, id: nat)
    requires j <= |log| && ReplyOf(log[..j], id) != []
    ensures exists i :: 0 <= i < j && log[i] == Stored(id, ReplyOf(log[..j], id))
                        && forall k :: i < k < j ==> !(log[k].Stored? && log[k].id == id) && log[k] != Saved(id)
    decreases j
  {
    if j > 0 {
      var e := log[j - 1];
      assert log[..j][..j - 1] == log[..j - 1] && log[..j][j - 1] == e;
      if !(e.Stored? && e.id == id) {
        StoredBefore(log, j - 1, id);
      }
    }
  }

  /**
   * What a duplicate is answered with is, byte for byte, the ACK or RST stored
   * last for the transaction, which is still there.
   */
  lemma DuplicatesGetTheStoredReply(steps: seq<Step>, j: nat)
    requires j < |Run(steps).log| && Run(steps).log[j].Repeated?
    ensures var log := Run(steps).log; var id := log[j].id;
            && Live(log[..j], id)
            && exists i :: 0 <= i < j && log[i] == Stored(id, log[j].reply)
                           && forall k :: i < k < j ==> !(log[k].Stored? && log[k].id == id) && log[k] != Saved(id)
  {
    RunKeeps(steps);
    var log := Run(steps).log;
    assert EntryOk(log, j);
    StoredBefore(log, j, log[j].id);
  }

  // ----- the statements of CoAPPeer.cpp -----

  class Transactions {
    var space: int
    var table: seq<Tx>
    var log: seq<Entry>              // kept for the statements only

    function St(): Server reads this { Server(space, table, log) }

    constructor ()
      ensures St() == Fresh()
    {
      space, table, log := NSYNC, [], [];
    }

    /** dropExpiredServerTransactions */
    method DropExpiredTransactions(now: nat)
      modifies this
      ensures St() == DropExpired(old(St()), now)
    {
      while table != [] && table[0].expires <= now
        invariant DropExpired(St(), now) == DropExpired(old(St()), now)
        decreases |table|
      {
        log := log + [Expired(table[0].id, table[0].expires, now)];
        table := table[1..];
        space := space + 1;
      }
    }

    /** Looks for a message id from the head of the list on. */
    method Lookup(id: nat) returns (i: nat)
      ensures i == Find(table, id)
    {
      i := 0;
      while i < |table| && table[i].id != id
        invariant i <= |table| && Find(table, id) == i + Find(table[i..], id)
      {
        assert table[i..][1..] == table[i + 1..];
        i := i + 1;
      }
    }

    /** WL_INSERT_SORT before expires is set */
    method InsertSort(t: Tx)
      modifies this`table
      ensures table == Insert(old(table), t)
    {
      var i := 0;
      while i < |table| && table[i].expires <= 0
        invariant i <= |table| && Place(table) == i + Place(table[i..])
      {
        assert table[i..][1..] == table[i + 1..];
        i := i + 1;
      }
      table := table[..i] + [t] + table[i..];
    }

    /** putServerTransaction */
    method PutTransaction(id: nat, con: bool, now: nat) returns (ok: bool)
      modifies this
      ensures St() == Put(old(St()), id, con, now)
    {
      var expires := if con then now + EXCHANGE_MS else now + NON_MS;
      DropExpiredTransactions(now);
      var i := Lookup(id);
      if i < |table| {
        return false;
      }
      if space == 0 {
        if table == [] {
          return false;
        }
        log := log + [Evicted(table[0].id)];
        table := table[1..];
        space := space + 1;
      }
      InsertSort(Tx(id, con, expires, []));
      space := space - 1;
      log := log + [Saved(id)];
      return true;
    }

    /** sendUnreliably for an ACK or RST: setServerTransactionReply, then the reply goes out. */
    method SendReply(id: nat, reply: bytes, now: nat)
      modifies this
      ensures St() == Reply(old(St()), id, reply, now)
    {
      DropExpiredTransactions(now);
      var i := Lookup(id);
      if i < |table| {
        table := table[i := table[i].(ackRst := reply)];
        log := log + [Stored(id, reply)];
      }
      log := log + [Sent(reply)];
    }

    /** handleRx for a CON or NON */
    method HandleRx(a: Arrival, now: nat)
      modifies this
      ensures St() == Receive(old(St()), a, now)
    {
      hide EmptyReply;
      if a.empty {
        if a.con {
          SendReply(a.id, EmptyReply(true, a.id), now);
        }
        return;
      }
      DropExpiredTransactions(now);
      var i := Lookup(a.id);
      if i < |table| {
        if table[i].ackRst != [] {
          log := log + [Repeated(a.id, table[i].ackRst)];
        }
        return;
      }
      var _ := PutTransaction(a.id, a.con, now);
      if a.handled {
        log := log + [Handled(a.id)];
        if a.con && !a.followUp.DoNothing? {
          SendReply(a.id, EmptyReply(a.followUp.SendRst?, a.id), now);
        }
      }
    }
  }
}
