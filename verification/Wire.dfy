/** Records on their way from one session to the other. */
module Wire {
  import opened Bytes
  import opened HandshakeCodec
  import opened Engine
  import opened Session
  import Record
  import Replay

  /**
   * The header of a record that is sent without security parameters. The code
   * writes the Short one, two bytes less; Full is what it was meant to be.
   */
  datatype HeaderForm = Full | Short(behind0: byte, behind1: byte)

  predicate Relabels(o: Out)
  {
    o.ctype == Record.CT_HANDSHAKE && o.payload != []
    && (o.payload[0] == HT_CLIENT_HELLO || o.payload[0] == HT_HELLO_VERIFY_REQUEST)
  }

  predicate Sendable(o: Out)
  {
    |o.payload| + 16 < 0x1_0000 && o.epoch < 0x1_0000 && o.seqnum < 0x1_0000_0000_0000 && o.ctype != 0
  }

  function HeaderOf(o: Out): Record.Header
  {
    Record.Header(o.ctype, Record.DTLS_VERSION, o.epoch, o.seqnum)
  }

  /** The datagram for a record, as dtls_send_multi hands it to write(). */
  function Datagram(aes: Record.Aes, sender: Role, form: HeaderForm, o: Out): (r: bytes)
    requires Sendable(o)
    ensures |r| >= Record.RH_LENGTH
  {
    var r := if o.bare && form.Short? then Record.BareRecord(o.ctype, o.payload, [form.behind0, form.behind1])
             else Record.RecordBytes(aes, sender, o.suite, o.keyBlock, HeaderOf(o), o.payload);
    if Relabels(o) then Record.Relabelled(r) else r
  }

  /**
   * is_record takes what is sent for exactly one record. (Without a version,
   * as the code writes a header without security parameters, only a relabelled
   * one.)
   */
  lemma DatagramIsRecord(aes: Record.Aes, sender: Role, form: HeaderForm, o: Out)
    requires Sendable(o) && (o.bare && form.Short? ==> Relabels(o))
    ensures IsPacket(Datagram(aes, sender, form, o))
  {
    hide Record.SealedBody, Record.Header.ToBytes, Record.IsRecord, Record.Relabelled, Record.BareRecord, PutBE;
    var h, bare := HeaderOf(o), o.bare && form.Short?;
    var n := if o.suite.NullSuite? || bare then |o.payload| else 8 + |o.payload| + Record.MAC_LENGTH;
    var r := if bare then Record.BareRecord(o.ctype, o.payload, [form.behind0, form.behind1])
             else Record.RecordBytes(aes, sender, o.suite, o.keyBlock, h, o.payload);
    if bare {
      Record.BareFields(o.ctype, o.payload, [form.behind0, form.behind1]);
    } else if o.suite.NullSuite? {
      Record.HeaderFields(h, n, o.payload);
    } else {
      Record.HeaderFields(h, n, Record.SealedBody(aes, sender, o.keyBlock, h, o.payload));
    }
    if Relabels(o) {
      Record.RelabelledFields(r);
      Record.RecordIs(Record.Relabelled(r), Record.DTLS10_VERSION, n);
    } else {
      Record.RecordIs(r, Record.DTLS_VERSION, n);
    }
  }

  /** The receiver finds epoch and number in the header, and opens the record with the same keys. */
  lemma DatagramOpens(aes: Record.Aes, sender: Role, form: HeaderForm, o: Out)
    requires Sendable(o) && (o.bare ==> form.Full?) && (Relabels(o) ==> o.suite.NullSuite?)
    ensures var w := Datagram(aes, sender, form, o);
            && Record.IsRecord(w) == |w| && IsPacket(w) && w[0] == o.ctype
            && Record.ReadHeader(w).epoch == o.epoch && Record.ReadHeader(w).seqnum == o.seqnum
            && Record.Open(aes, sender.Other(), o.suite, o.keyBlock, w) == Record.Cleartext(o.payload)
            && (o.suite.NullSuite? ==> w[Record.RH_LENGTH..] == o.payload)
  {
    DatagramIsRecord(aes, sender, form, o);
    var h := HeaderOf(o);
    hide Record.SealedBody, Record.Header.ToBytes, Record.ReadHeader, Record.OpenBody, Record.IsRecord, GetBE,
         Record.Relabelled;
    if o.suite.NullSuite? {
      var h' := if Relabels(o) then h.(version := Record.DTLS10_VERSION) else h;
      if Relabels(o) {
        Record.RelabelledRecord(aes, sender, o.keyBlock, h, o.payload);
      }
      Record.HeaderReadsBack(h', |o.payload|, o.payload);
      PlainParts(h', o.payload);
    } else {
      Record.SealedOpens(aes, sender, o.keyBlock, h, o.payload, []);
      SealedParts(aes, sender, o.keyBlock, h, o.payload);
    }
  }

  lemma PlainParts(h: Record.Header, payload: bytes)
    ensures var r := Record.PlainRecord(h, payload);
            |r| == Record.RH_LENGTH + |payload| && r[0] == h.ctype && r[Record.RH_LENGTH..] == payload
  {
    hide Record.Header.Number, PutBE;
  }

  lemma SealedParts(aes: Record.Aes, role: Role, kb: Record.KeyBlock, h: Record.Header, payload: bytes)
    requires |payload| < 0x100_0000
    ensures var r := Record.SealedRecord(aes, role, kb, h, payload);
            |r| == Record.RH_LENGTH + |payload| + 16 && r[0] == h.ctype
  {
    hide Record.Header.Number, PutBE, Record.SealedBody;
  }

  // ----- what the receiving session makes of it -----

  /** The peer up to what the statements are not about: which old numbers were seen, sent and log. */
  function Plainly(p: Peer): Peer
  {
    p.(slot0 := PlainSlot(p.slot0), slot1 := PlainSlot(p.slot1), sent := [], log := [])
  }

  function PlainSlot(s: Option<Security>): Option<Security>
  {
    if s.None? then None else Some(s.value.(window := Replay.State(s.value.window.cseq, Replay.NoBits())))
  }

  function Seen(p: Peer, epoch: nat, seqnum: nat): Peer
  {
    SetWindow(p, epoch, Replay.State(seqnum, Replay.NoBits()))
  }

  predicate New(w: Replay.State, seqnum: nat) { seqnum > w.cseq || (seqnum == 0 && w.cseq == 0) }

  /** A new record under live parameters is read, and its number remembered. */
  lemma ReceivesNew(env: Env, p: Peer, packet: bytes, payload: bytes)
    requires IsPacket(packet) && payload != []
    requires var h := Record.ReadHeader(packet); var s := SecurityOf(p, h.epoch);
             && s.Some? && New(s.value.window, h.seqnum)
             && Record.Open(env.aes, p.role, s.value.suite, s.value.keyBlock, packet) == Record.Cleartext(payload)
    ensures var h := Record.ReadHeader(packet); var s := SecurityOf(p, h.epoch).value;
            var (q, got) := Receive(env, p, packet);
            && got == Plain(payload)
            && Plainly(q) == Seen(if s.suite.PskCcm8? then FreeOther(Plainly(p)) else Plainly(p), h.epoch, h.seqnum)
  {
    hide Record.Open, Record.ReadHeader;
  }
}
