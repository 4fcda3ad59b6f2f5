/** What a request that was not seen before is answered with (CoAPPeer.cpp). */
module CoapServerAnswers {
  import opened Bytes
  import opened CoapServer
  import CoapMessage
  import CoapOption
  import CoapServerAge

  // ----- the reply as bytes -----

  /** Types of RFC 7252, section 3. */
  const ACKNOWLEDGEMENT := 2
  const RESET := 3

  /** An empty message with this id. */
  function Empty(mtype: nat, id: nat): CoapMessage.Message
  {
    CoapMessage.Message(1, mtype, 0, 0, id, 0, 0, [], [])
  }

  /** What the receiver decodes. */
  lemma ReplyDecodes(rst: bool, id: nat)
    requires id < 0x1_0000
    ensures CoapMessage.ParseMessage(EmptyReply(rst, id)) == CoapOption.Just(Empty(if rst then RESET else ACKNOWLEDGEMENT, id))
  {
    var s := EmptyReply(rst, id);
    assert Pow256(2) == 0x1_0000;
    GetPutBE(id, 2);
    assert s[2..4] == PutBE(id, 2);
    assert s[4..] == [] && s[4..4] == [] && GetBE([]) == 0;
  }

  /** What the code sends for a follow-up, decoded. */
  predicate Answers(reply: bytes, followUp: FollowUp, id: nat)
  {
    match followUp
    case DoNothing => false
    case SendAck => CoapMessage.ParseMessage(reply) == CoapOption.Just(Empty(ACKNOWLEDGEMENT, id))
    case SendRst => CoapMessage.ParseMessage(reply) == CoapOption.Just(Empty(RESET, id))
  }

  // ----- a message under an id that is not there -----

  /** It is saved; a full table makes room first. */
  lemma SavesExactly(s: Server, id: nat, con: bool, now: nat)
    requires Inv(s) && DropExpired(s, now) == s && Find(s.table, id) == |s.table|
    ensures var r := Put(s, id, con, now);
            && r.table == [Tx(id, con, now + (if con then 114500 else 30052), [])]
                        + (if s.space == 0 then s.table[1..] else s.table)
            && r.log == s.log + (if s.space == 0 then [Evicted(s.table[0].id)] else []) + [Saved(id)]
  {
    hide DropExpired;
    var t := Tx(id, con, now + Lifetime(con), []);
    if s.space == 0 {
      PopKeeps(s, Evicted(s.table[0].id));
      InsertsAtHead(Pop(s, Evicted(s.table[0].id)), t);
    } else {
      assert s.log + [] == s.log;
      InsertsAtHead(s, t);
    }
  }

  /** Answering for the newest transaction, which has not expired. */
  lemma ReplyExactly(s: Server, id: nat, reply: bytes, now: nat)
    requires s.table != [] && s.table[0].id == id && s.table[0].expires > now
    ensures var r := Reply(s, id, reply, now);
            && r.log == s.log + [Stored(id, reply), Sent(reply)]
            && r.table == [s.table[0].(ackRst := reply)] + s.table[1..]
  {
    assert DropExpired(s, now) == s && Find(s.table, id) == 0;
    hide DropExpired, Find;
    assert s.log + [Stored(id, reply)] + [Sent(reply)] == s.log + [Stored(id, reply), Sent(reply)];
  }

  /** What is logged for it. */
  ghost predicate AnsweredBy(s1: Server, log: seq<Entry>, a: Arrival)
  {
    var room := if s1.space == 0 && s1.table != [] then [Evicted(s1.table[0].id)] else [];
    if !a.handled then log == s1.log + room + [Saved(a.id)]
    else if !a.con || a.followUp.DoNothing? then log == s1.log + room + [Saved(a.id), Handled(a.id)]
    else
      exists reply :: Answers(reply, a.followUp, a.id)
                      && log == s1.log + room + [Saved(a.id), Handled(a.id), Stored(a.id, reply), Sent(reply)]
  }

  lemma NewExactly(s: Server, a: Arrival, now: nat)
    requires Inv(s) && !a.empty && a.id < 0x1_0000
    requires var s1 := DropExpired(s, now); Find(s1.table, a.id) == |s1.table|
    ensures AnsweredBy(DropExpired(s, now), Receive(s, a, now).log, a)
    ensures var t := Receive(s, a, now).table;
            t != [] && t[0].id == a.id && t[0].con == a.con && t[0].expires == now + if a.con then 114500 else 30052
  {
    DropExpiredKeeps(s, now);
    DropExpiredStops(s, now);
    var s1 := DropExpired(s, now);
    SavesExactly(s1, a.id, a.con, now);
    hide DropExpired, Inv, Put, Reply, EmptyReply, CoapMessage.ParseMessage;
    var s2 := Put(s1, a.id, a.con, now);
    var room := if s1.space == 0 && s1.table != [] then [Evicted(s1.table[0].id)] else [];
    if a.handled {
      var s3 := Note(s2, Handled(a.id));
      assert s3.log == s1.log + room + [Saved(a.id), Handled(a.id)];
      if a.con && !a.followUp.DoNothing? {
        var reply := EmptyReply(a.followUp.SendRst?, a.id);
        ReplyDecodes(a.followUp.SendRst?, a.id);
        ReplyExactly(s3, a.id, reply, now);
        assert Receive(s, a, now) == Reply(s3, a.id, reply, now);
        assert s3.log + [Stored(a.id, reply), Sent(reply)]
            == s1.log + room + [Saved(a.id), Handled(a.id), Stored(a.id, reply), Sent(reply)];
      }
    }
  }

  /**
   * In every run, whatever arrives under an id that is not there, and is not an
   * empty message, is saved, after a full table has made room; it is handled
   * exactly if there is a handler; and only a CON is answered, with what the
   * handler asks for: an empty ACK or an empty RST under its id, stored and sent.
   */
  lemma NewRequestAnswered(steps: seq<Step>, a: Arrival, now: nat)
    requires !a.empty && a.id < 0x1_0000
    requires var s1 := DropExpired(Run(steps), now); Find(s1.table, a.id) == |s1.table|
    ensures AnsweredBy(DropExpired(Run(steps), now), Do(Run(steps), Comes(a), now).log, a)
    ensures var t := Do(Run(steps), Comes(a), now).table;
            t != [] && t[0].id == a.id && t[0].con == a.con && t[0].expires == now + if a.con then 114500 else 30052
  {
    RunKeeps(steps);
    hide Run, DropExpired, Receive, AnsweredBy, Inv;
    NewExactly(Run(steps), a, now);
  }

  /** In every run an empty CON is answered with an empty RST under its id, and an empty NON with nothing. */
  lemma EmptyAnswered(steps: seq<Step>, a: Arrival, now: nat)
    requires a.empty && a.id < 0x1_0000
    ensures var s, s' := Run(steps), Do(Run(steps), Comes(a), now);
            if !a.con then s' == s
            else
              && |s'.log| > |s.log| && s'.log[|s'.log| - 1].Sent?
              && CoapMessage.ParseMessage(s'.log[|s'.log| - 1].reply) == CoapOption.Just(Empty(RESET, a.id))
              && forall i :: |s.log| <= i < |s'.log| - 1 ==>
                   s'.log[i].Expired? || s'.log[i] == Stored(a.id, s'.log[|s'.log| - 1].reply)
  {
    hide Run;
    var s := Run(steps);
    ReplyDecodes(true, a.id);
    CoapServerAge.OnlyExpiries(s, now);
    hide DropExpired, EmptyReply, CoapMessage.ParseMessage, Find;
  }
}
