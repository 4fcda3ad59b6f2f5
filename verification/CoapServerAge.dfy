/**
 * How old the server transactions are: which one a full table forgets, which
 * expired ones stay, and what becomes of a duplicate (CoAPPeer.cpp).
 */
module CoapServerAge {
  import opened Bytes
  import opened CoapServer

  // ----- the order of arrival -----

  /** When the id was saved last: the number of entries up to and with that one. */
  function SavedAt(log: seq<Entry>, id: nat): (n: nat)
    ensures n <= |log|
  {
    if log == [] then 0
    else if log[|log| - 1] == Saved(id) then |log|
    else SavedAt(log[..|log| - 1], id)
  }

  lemma SavedNext(log: seq<Entry>, e: Entry, id: nat)
    ensures SavedAt(log + [e], id) == if e == Saved(id) then |log| + 1 else SavedAt(log, id)
  {
    assert (log + [e])[..|log|] == log;
  }

  ghost predicate NewestFirst(s: Server)
  {
    forall i, j :: 0 <= i < j < |s.table| ==> SavedAt(s.log, s.table[i].id) > SavedAt(s.log, s.table[j].id)
  }

  /** An entry that saves nothing, about the same transactions or all but the first. */
  lemma OlderStay(s: Server, e: Entry, s': Server)
    requires NewestFirst(s) && !e.Saved? && s'.log == s.log + [e]
    requires || (|s'.table| == |s.table| && forall i :: 0 <= i < |s.table| ==> s'.table[i].id == s.table[i].id)
             || (s.table != [] && s'.table == s.table[1..])
    ensures NewestFirst(s')
  {
    forall i, j | 0 <= i < j < |s'.table| ensures SavedAt(s'.log, s'.table[i].id) > SavedAt(s'.log, s'.table[j].id) {
      SavedNext(s.log, e, s'.table[i].id);
      SavedNext(s.log, e, s'.table[j].id);
    }
  }

  lemma {:induction false} DropExpiredOrdered(s: Server, now: nat)
    requires NewestFirst(s)
    ensures NewestFirst(DropExpired(s, now))
    decreases |s.table|
  {
    hide NewestFirst;
    if s.table != [] && s.table[0].expires <= now {
      var e := Expired(s.table[0].id, s.table[0].expires, now);
      OlderStay(s, e, Pop(s, e));
      DropExpiredOrdered(Pop(s, e), now);
    }
  }

  lemma SaveOrdered(s: Server, t: Tx)
    requires NewestFirst(s) && !HasId(s.table, t.id)
    ensures NewestFirst(s.(table := [t] + s.table, space := s.space - 1, log := s.log + [Saved(t.id)]))
  {
    var table, log := [t] + s.table, s.log + [Saved(t.id)];
    forall i, j | 0 <= i < j < |table| ensures SavedAt(log, table[i].id) > SavedAt(log, table[j].id) {
      assert table[j] == s.table[j - 1] && s.table[j - 1].id != t.id;
      SavedNext(s.log, Saved(t.id), table[i].id);
      SavedNext(s.log, Saved(t.id), table[j].id);
      assert i > 0 ==> table[i] == s.table[i - 1] && s.table[i - 1].id != t.id;
    }
  }

  lemma PutOrdered(s: Server, id: nat, con: bool, now: nat)
    requires Inv(s) && NewestFirst(s)
    ensures NewestFirst(Put(s, id, con, now))
  {
    hide NewestFirst;
    DropExpiredKeeps(s, now);
    DropExpiredOrdered(s, now);
    var s1 := DropExpired(s, now);
    hide DropExpired;
    if Find(s1.table, id) == |s1.table| && !(s1.space == 0 && s1.table == []) {
      NotFound(s1.table, id);
      var s2 := s1;
      if s1.space == 0 {
        var e := Evicted(s1.table[0].id);
        PopKeeps(s1, e);
        HeadOf(s1.table);
        OlderStay(s1, e, Pop(s1, e));
        s2 := Pop(s1, e);
      }
      var t := Tx(id, con, now + Lifetime(con), []);
      InsertsAtHead(s2, t);
      SaveOrdered(s2, t);
    }
  }

  lemma ReplyOrdered(s: Server, id: nat, reply: bytes, now: nat)
    requires NewestFirst(s)
    ensures NewestFirst(Reply(s, id, reply, now))
  {
    DropExpiredOrdered(s, now);
    var s1 := DropExpired(s, now);
    hide DropExpired, NewestFirst;
    var s2 := SetReply(s, id, reply, now);
    if Find(s1.table, id) < |s1.table| {
      OlderStay(s1, Stored(id, reply), s2);
    }
    OlderStay(s2, Sent(reply), Note(s2, Sent(reply)));
  }

  lemma ReceiveOrdered(s: Server, a: Arrival, now: nat)
    requires Inv(s) && NewestFirst(s)
    ensures NewestFirst(Receive(s, a, now))
  {
    hide Reply, Put, NewestFirst;
    if a.empty {
      ReplyOrdered(s, a.id, EmptyReply(true, a.id), now);
    } else {
      DropExpiredKeeps(s, now);
      DropExpiredOrdered(s, now);
      var s1 := DropExpired(s, now);
      hide DropExpired;
      var i := Find(s1.table, a.id);
      if i < |s1.table| {
        OlderStay(s1, Repeated(a.id, s1.table[i].ackRst), Note(s1, Repeated(a.id, s1.table[i].ackRst)));
      } else {
        PutOrdered(s1, a.id, a.con, now);
        var s2 := Put(s1, a.id, a.con, now);
        var s3 := Note(s2, Handled(a.id));
        OlderStay(s2, Handled(a.id), s3);
        ReplyOrdered(s3, a.id, EmptyReply(a.followUp.SendRst?, a.id), now);
      }
    }
  }

  /** In every run the table is in the order of arrival, the newest first. */
  lemma {:induction false} OrderedInEveryRun(steps: seq<Step>)
    ensures NewestFirst(Run(steps))
    decreases |steps|
  {
    if steps != [] {
      var n := |steps| - 1;
      OrderedInEveryRun(steps[..n]);
      RunKeeps(steps[..n]);
      var s := Run(steps[..n]);
      hide Receive, Reply, NewestFirst, Inv;
      match steps[n].op
      case Comes(a) => ReceiveOrdered(s, a, steps[n].now);
      case Answers(id, reply) => ReplyOrdered(s, id, reply, steps[n].now);
    }
  }

  // ----- a full table -----

  /**
   * A full table makes room by forgetting the transaction that was saved after
   * all the others.
   */
  lemma EvictsTheNewest(steps: seq<Step>, id: nat, con: bool, now: nat)
    requires var s := DropExpired(Run(steps), now); s.space == 0 && Find(s.table, id) == |s.table|
    ensures var s, s' := DropExpired(Run(steps), now), Put(Run(steps), id, con, now);
            && |s.table| == NSYNC
            && s'.table == [Tx(id, con, now + Lifetime(con), [])] + s.table[1..]
            && s'.log == s.log + [Evicted(s.table[0].id), Saved(id)]
            && forall k :: 0 < k < |s.table| ==> SavedAt(s.log, s.table[0].id) > SavedAt(s.log, s.table[k].id)
  {
    RunKeeps(steps);
    OrderedInEveryRun(steps);
    DropExpiredKeeps(Run(steps), now);
    DropExpiredOrdered(Run(steps), now);
    var s := DropExpired(Run(steps), now);
    hide DropExpired, Run;
    PopKeeps(s, Evicted(s.table[0].id));
    InsertsAtHead(Pop(s, Evicted(s.table[0].id)), Tx(id, con, now + Lifetime(con), []));
  }

  /** The first of the table was saved before all others: what "drop the oldest" takes for granted. */
  ghost predicate HeadIsOldest(s: Server)
    requires s.table != []
  {
    forall k :: 0 < k < |s.table| ==> SavedAt(s.log, s.table[0].id) < SavedAt(s.log, s.table[k].id)
  }

  /** The head is the oldest exactly if it is alone; a full table has NSYNC, so there it never is. */
  lemma OldestOnlyIfAlone(steps: seq<Step>, now: nat)
    requires DropExpired(Run(steps), now).table != []
    ensures var s := DropExpired(Run(steps), now);
            && (HeadIsOldest(s) <==> |s.table| == 1)
            && (s.space == 0 ==> !HeadIsOldest(s))
  {
    RunKeeps(steps);
    OrderedInEveryRun(steps);
    DropExpiredKeeps(Run(steps), now);
    DropExpiredOrdered(Run(steps), now);
    var s := DropExpired(Run(steps), now);
    hide DropExpired, Run;
    assert |s.table| > 1 ==> SavedAt(s.log, s.table[0].id) > SavedAt(s.log, s.table[1].id);
  }

  /** A request with this id that the handler takes without answering. */
  function Request(id: nat, con: bool): Op { Comes(Arrival(id, con, false, true, DoNothing)) }

  /** n requests at once */
  function Filling(n: nat): seq<Step> { seq(n, i requires 0 <= i < n => Step(Request(i, true), 0)) }

  /** n transactions, as the requests of Filling leave them. */
  ghost predicate Filled(s: Server, n: nat)
  {
    && |s.table| == n && s.space == NSYNC - n
    && forall i :: 0 <= i < n ==> s.table[i] == Tx(n - 1 - i, true, EXCHANGE_MS, [])
  }

  lemma OneMore(s: Server, n: nat)
    requires Inv(s) && Filled(s, n) && n < NSYNC
    ensures Filled(Do(s, Request(n, true), 0), n + 1)
  {
    var t := Tx(n, true, EXCHANGE_MS, []);
    InsertsAtHead(s, t);
    assert DropExpired(s, 0) == s;
    hide DropExpired, Inv, Insert;
    assert Find(s.table, n) == n;
    assert Do(s, Request(n, true), 0).table == [t] + s.table;
  }

  lemma {:induction false} FillsUp(n: nat)
    requires n <= NSYNC
    ensures Filled(Run(Filling(n)), n)
    decreases n
  {
    if n > 0 {
      FillsUp(n - 1);
      RunKeeps(Filling(n - 1));
      assert Filling(n)[..n - 1] == Filling(n - 1);
      hide Filled, Do, Inv;
      OneMore(Run(Filling(n - 1)), n - 1);
    }
  }

  /** After 128 requests one more drives out the last of them, and the first stays. */
  lemma FullTableLosesTheLast()
    ensures var s := Run(Filling(NSYNC));
            var s' := Do(s, Request(NSYNC, true), 0);
            && s.space == 0 && HasId(s.table, NSYNC - 1) && HasId(s.table, 0)
            && !HasId(s'.table, NSYNC - 1) && HasId(s'.table, 0)
  {
    FillsUp(NSYNC);
    var s := Run(Filling(NSYNC));
    assert DropExpired(s, 0) == s;
    NoneHasId(s);
    EvictsTheNewest(Filling(NSYNC), NSYNC, true, 0);
    hide Run, Filling, DropExpired, Insert, SavedAt, HasId, Filled;
    RequestPuts(s, NSYNC);
    LosesTheLast(s, Do(s, Request(NSYNC, true), 0));
  }

  lemma NoneHasId(s: Server)
    requires Filled(s, NSYNC)
    ensures Find(s.table, NSYNC) == |s.table| == NSYNC
  {
    hide Find;
  }

  lemma RequestPuts(s: Server, id: nat)
    requires DropExpired(s, 0) == s && Find(s.table, id) == |s.table|
    ensures Do(s, Request(id, true), 0).table == Put(s, id, true, 0).table
  {
    hide Put, DropExpired;
  }

  lemma LosesTheLast(s: Server, s': Server)
    requires Filled(s, NSYNC) && s'.table == [Tx(NSYNC, true, EXCHANGE_MS, [])] + s.table[1..]
    ensures s.space == 0 && HasId(s.table, NSYNC - 1) && HasId(s.table, 0)
    ensures !HasId(s'.table, NSYNC - 1) && HasId(s'.table, 0)
  {
    assert s.table[0].id == NSYNC - 1 && s.table[NSYNC - 1].id == 0;
    assert s'.table[NSYNC - 1] == s.table[NSYNC - 1];
    assert forall i :: 1 <= i < NSYNC ==> s'.table[i] == s.table[i];
  }

  // ----- expired transactions -----

  lemma {:induction false} DropsAPrefix(s: Server, now: nat) returns (k: nat)
    ensures k <= |s.table| && DropExpired(s, now).table == s.table[k..]
    ensures (forall j :: 0 <= j < k ==> s.table[j].expires <= now) && (k < |s.table| ==> s.table[k].expires > now)
    decreases |s.table|
  {
    if s.table == [] || s.table[0].expires > now {
      k := 0;
    } else {
      var s1 := Pop(s, Expired(s.table[0].id, s.table[0].expires, now));
      var n := DropsAPrefix(s1, now);
      k := n + 1;
      assert s1.table[n..] == s.table[k..];
      assert forall j :: 0 < j < |s.table| ==> s.table[j] == s1.table[j - 1];
    }
  }

  /** A transaction leaves exactly if it and every one that came after it have expired. */
  lemma ExpiredLeavesWithTheNewer(steps: seq<Step>, i: nat, now: nat)
    requires i < |Run(steps).table|
    ensures var table := Run(steps).table;
            !HasId(DropExpired(Run(steps), now).table, table[i].id)
            <==> forall j :: 0 <= j <= i ==> table[j].expires <= now
  {
    RunKeeps(steps);
    var s := Run(steps);
    var k := DropsAPrefix(s, now);
    hide DropExpired, Run;
    var left := s.table[k..];
    if i >= k {
      assert left[i - k].id == s.table[i].id;
    } else {
      forall j | 0 <= j < |left| ensures left[j].id != s.table[i].id {
        assert left[j] == s.table[k + j];
      }
    }
  }

  /** So a request whose transaction has expired is handled again exactly if all newer ones have expired too. */
  lemma HandledAgain(steps: seq<Step>, i: nat, a: Arrival, now: nat)
    requires i < |Run(steps).table| && a.id == Run(steps).table[i].id && !a.empty && a.handled
    ensures var s, s' := Run(steps), Do(Run(steps), Comes(a), now);
            (exists k :: |s.log| <= k < |s'.log| && s'.log[k] == Handled(a.id))
            <==> forall j :: 0 <= j <= i ==> s.table[j].expires <= now
  {
    ExpiredLeavesWithTheNewer(steps, i, now);
    var s, s', s1 := Run(steps), Do(Run(steps), Comes(a), now), DropExpired(Run(steps), now);
    OnlyExpiries(s, now);
    hide DropExpired, Run;
    if Find(s1.table, a.id) == |s1.table| {
      NotFound(s1.table, a.id);
      HandlesNow(s, s1, a, now);
    } else {
      FoundRepeats(s, s1, a, now);
      assert HasId(s1.table, a.id);
    }
  }

  lemma HandlesNow(s: Server, s1: Server, a: Arrival, now: nat)
    requires s1 == DropExpired(s, now) && |s1.log| >= |s.log| && !a.empty && a.handled && Find(s1.table, a.id) == |s1.table|
    ensures exists k :: |s.log| <= k < |Receive(s, a, now).log| && Receive(s, a, now).log[k] == Handled(a.id)
  {
    var s2 := Put(s1, a.id, a.con, now);
    var s3 := Note(s2, Handled(a.id));
    OnlyExpiries(s1, now);
    OnlyExpiries(s3, now);
    hide DropExpired;
    assert |s2.log| >= |s1.log| && s3.log[|s2.log|] == Handled(a.id);
    assert Receive(s, a, now).log[|s2.log|] == Handled(a.id);
  }

  /** A request is dropped although its transaction expired 9948 ms ago, because a newer one has not. */
  lemma StaysPastItsLifetime()
    ensures var s := Run([Step(Request(1, false), 0), Step(Request(2, true), 1)]);
            && |s.table| == 2 && s.table[1].id == 1 && s.table[1].expires == 30052
            && Do(s, Request(1, false), 40000) == s
  {
    var s1, s2 := Step(Request(1, false), 0), Step(Request(2, true), 1);
    var two := [s1, s2];
    assert two[..1] == [s1] && [s1][..0] == [];
    assert Run([]) == Fresh();
    var a := Run([s1]);
    assert a == Do(Fresh(), s1.op, 0);
    assert a.table == [Tx(1, false, 30052, [])];
    assert Run(two) == Do(a, s2.op, 1);
    InsertsTwo(Tx(2, true, 114501, []), Tx(1, false, 30052, []));
  }

  lemma InsertsTwo(t: Tx, u: Tx)
    requires u.expires > 0
    ensures Insert([u], t) == [t, u]
  {
  }

  // ----- duplicates -----

  /** Dropping what has expired logs nothing but that. */
  lemma {:induction false} OnlyExpiries(s: Server, now: nat)
    ensures var log := DropExpired(s, now).log;
            && |log| >= |s.log| && log[..|s.log|] == s.log && forall i :: |s.log| <= i < |log| ==> log[i].Expired?
    decreases |s.table|
  {
    if s.table != [] && s.table[0].expires <= now {
      var s1 := Pop(s, Expired(s.table[0].id, s.table[0].expires, now));
      OnlyExpiries(s1, now);
      var log := DropExpired(s, now).log;
      assert log[..|s.log|] == log[..|s1.log|][..|s.log|];
      assert log[|s.log|] == log[..|s1.log|][|s.log|];
    }
  }

  /** Nothing was logged but expiries, and then at most that the stored reply was repeated. */
  ghost predicate OnlyRepeats(was: seq<Entry>, log: seq<Entry>, id: nat)
  {
    exists k :: RepeatsFrom(was, log, id, k)
  }

  ghost predicate RepeatsFrom(was: seq<Entry>, log: seq<Entry>, id: nat, k: nat)
  {
    && |was| <= k <= |log| && log[..|was|] == was && (forall i :: |was| <= i < k ==> log[i].Expired?)
    && (log[k..] == [] || log[k..] == [Repeated(id, ReplyOf(log[..k], id))])
  }

  lemma FoundRepeats(s: Server, s1: Server, a: Arrival, now: nat)
    requires s1 == DropExpired(s, now) && !a.empty && Find(s1.table, a.id) < |s1.table|
    ensures var t := s1.table[Find(s1.table, a.id)];
            Receive(s, a, now) == if t.ackRst == [] then s1 else Note(s1, Repeated(a.id, t.ackRst))
  {
    hide DropExpired;
  }

  /**
   * Whatever arrives under the id of a transaction that is there, nothing
   * happens but expiries and at most a repetition of the reply stored last; the
   * one exception is an empty CON. The reply is repeated exactly if there is one.
   */
  lemma DuplicateOnlyRepeats(steps: seq<Step>, a: Arrival, now: nat)
    requires var table := DropExpired(Run(steps), now).table; Find(table, a.id) < |table|
    ensures var s, s1, s' := Run(steps), DropExpired(Run(steps), now), Do(Run(steps), Comes(a), now);
            && (OnlyRepeats(s.log, s'.log, a.id) <==> !(a.empty && a.con))
            && (!a.empty ==>
                  s'.log == s1.log + if ReplyOf(s1.log, a.id) == [] then [] else [Repeated(a.id, ReplyOf(s1.log, a.id))])
  {
    RunKeeps(steps);
    DropExpiredKeeps(Run(steps), now);
    OnlyExpiries(Run(steps), now);
    if a.empty && a.con {
      EmptyConAnswers(steps, a, now);
      hide Run, DropExpired, Do;
      SentIsNoRepeat(Run(steps).log, Do(Run(steps), Comes(a), now).log, a.id);
    } else if a.empty {
      assert RepeatsFrom(Run(steps).log, Run(steps).log, a.id, |Run(steps).log|);
    } else {
      hide Run, DropExpired;
      FullRepeats(Run(steps), DropExpired(Run(steps), now), a, now);
    }
  }

  lemma SentIsNoRepeat(was: seq<Entry>, log: seq<Entry>, id: nat)
    requires |was| < |log| && log[|log| - 1].Sent?
    ensures !OnlyRepeats(was, log, id)
  {
    forall k: nat ensures !RepeatsFrom(was, log, id, k) {
      if |was| <= k < |log| {
        assert log[k..][|log| - 1 - k] == log[|log| - 1];
      }
    }
  }

  /** Anything but an empty message, under an id that is there. */
  lemma FullRepeats(s: Server, s1: Server, a: Arrival, now: nat)
    requires s1 == DropExpired(s, now) && Inv(s1) && !a.empty && Find(s1.table, a.id) < |s1.table|
    requires |s1.log| >= |s.log| && s1.log[..|s.log|] == s.log
    requires forall i :: |s.log| <= i < |s1.log| ==> s1.log[i].Expired?
    ensures var s', reply := Receive(s, a, now), ReplyOf(s1.log, a.id);
            && s'.log == s1.log + (if reply == [] then [] else [Repeated(a.id, reply)])
            && OnlyRepeats(s.log, s'.log, a.id)
  {
    FoundRepeats(s, s1, a, now);
    var log, k := Receive(s, a, now).log, |s1.log|;
    hide DropExpired, Receive, LogOk, Distinct, HasId, Live, ReplyOf;
    assert log[..k] == s1.log;
    assert RepeatsFrom(s.log, log, a.id, k);
  }

  /** An empty CON is answered with a new RST, which replaces the reply that was stored. */
  lemma EmptyConAnswers(steps: seq<Step>, a: Arrival, now: nat)
    requires a.empty && a.con
    requires var table := DropExpired(Run(steps), now).table; Find(table, a.id) < |table|
    ensures var s1, s' := DropExpired(Run(steps), now), Do(Run(steps), Comes(a), now);
            var rst := EmptyReply(true, a.id);
            && s'.log == s1.log + [Stored(a.id, rst), Sent(rst)] && ReplyOf(s'.log, a.id) == rst
  {
    var s1, rst := DropExpired(Run(steps), now), EmptyReply(true, a.id);
    hide DropExpired, Run, EmptyReply;
    LogNext(s1.log, Stored(a.id, rst), a.id);
    LogNext(s1.log + [Stored(a.id, rst)], Sent(rst), a.id);
    assert s1.log + [Stored(a.id, rst)] + [Sent(rst)] == s1.log + [Stored(a.id, rst), Sent(rst)];
  }
}
