/**
 * The receive buffer of the modem: draining into it, and splitting what it holds
 * into lines (OwlModem.cpp).
 */
module ModemLines {
  import opened Bytes

  const CR: byte := 13
  const LF: byte := 10

  predicate IsBreak(b: byte) { b == CR || b == LF }

  // ----- what the lines of a stream are -----

  /** The lines completed so far, and the characters since. */
  datatype Split = Split(lines: seq<bytes>, tail: bytes)

  function Feed(p: Split, b: byte): Split
  {
    if !IsBreak(b) then Split(p.lines, p.tail + [b])
    else if p.tail == [] then p
    else Split(p.lines + [p.tail], [])
  }

  function Scan(p: Split, s: bytes): Split
  {
    if s == [] then p else Feed(Scan(p, s[..|s| - 1]), s[|s| - 1])
  }

  /** The non-empty stretches of s that are ended by a CR or LF, and what comes after the last. */
  function SplitOf(s: bytes): Split { Scan(Split([], []), s) }

  lemma {:induction false} ScanJoin(p: Split, a: bytes, b: bytes)
    ensures Scan(p, a + b) == Scan(Scan(p, a), b)
    decreases |b|
  {
    if b == [] {
      assert a + b == a;
    } else {
      ScanJoin(p, a, b[..|b| - 1]);
      assert (a + b)[..|a + b| - 1] == a + b[..|b| - 1];
    }
  }

  /** Lines found before do not matter for what is found now. */
  lemma {:induction false} ScanShift(ls: seq<bytes>, p: Split, s: bytes)
    ensures var q := Scan(p, s); Scan(Split(ls + p.lines, p.tail), s) == Split(ls + q.lines, q.tail)
    decreases |s|
  {
    if s != [] {
      ScanShift(ls, p, s[..|s| - 1]);
      var q := Scan(p, s[..|s| - 1]);
      assert ls + q.lines + [q.tail] == ls + (q.lines + [q.tail]);
    }
  }

  ghost predicate AllBreaks(s: bytes) { forall i :: 0 <= i < |s| ==> IsBreak(s[i]) }

  ghost predicate NoBreaks(s: bytes) { forall i :: 0 <= i < |s| ==> !IsBreak(s[i]) }

  lemma {:induction false} ScanBreaks(p: Split, s: bytes)
    requires AllBreaks(s) && p.tail == []
    ensures Scan(p, s) == p
    decreases |s|
  {
    if s != [] {
      ScanBreaks(p, s[..|s| - 1]);
    }
  }

  lemma {:induction false} ScanWord(p: Split, s: bytes)
    requires NoBreaks(s)
    ensures Scan(p, s) == Split(p.lines, p.tail + s)
    decreases |s|
  {
    if s == [] {
      assert p.tail + [] == p.tail;
    } else {
      ScanWord(p, s[..|s| - 1]);
      assert p.tail + s[..|s| - 1] + [s[|s| - 1]] == p.tail + s;
    }
  }

  /** Breaks, a line, and what follows from its end on. */
  lemma ScanLine(p: Split, breaks: bytes, line: bytes, rest: bytes)
    requires p.tail == [] && AllBreaks(breaks) && NoBreaks(line) && line != [] && rest != [] && IsBreak(rest[0])
    ensures Scan(p, breaks + line + rest) == Scan(Split(p.lines + [line], []), rest)
  {
    hide Scan;
    ScanJoin(p, breaks + line, rest);
    ScanJoin(p, breaks, line);
    ScanBreaks(p, breaks);
    ScanWord(p, line);
    assert [] + line == line;
    BreakFirst(Split(p.lines, line), rest);
    BreakFirst(Split(p.lines + [line], []), rest);
  }

  lemma BreakFirst(p: Split, rest: bytes)
    requires rest != [] && IsBreak(rest[0])
    ensures Scan(p, rest) == Scan(Feed(p, rest[0]), rest[1..])
  {
    assert rest == [rest[0]] + rest[1..];
    ScanJoin(p, [rest[0]], rest[1..]);
    assert [rest[0]][..0] == [];
    assert Scan(p, [rest[0]]) == Feed(p, rest[0]);
  }

  /** How long s goes on without a carriage return (13) or line feed (10). */
  function Stretch(s: bytes): (n: nat)
    ensures n <= |s|
  {
    if s == [] || s[0] == 13 || s[0] == 10 then 0 else 1 + Stretch(s[1..])
  }

  /** The same, read from the front: breaks are skipped, and a stretch is a line once something follows it. */
  function LinesFrom(s: bytes): Split
    decreases |s|
  {
    var n := Stretch(s);
    if s == [] then Split([], [])
    else if n == 0 then LinesFrom(s[1..])
    else if n == |s| then Split([], s)
    else var r := LinesFrom(s[n..]); Split([s[..n]] + r.lines, r.tail)
  }

  lemma {:induction false} StretchIs(s: bytes)
    ensures var n := Stretch(s); NoBreaks(s[..n]) && (n < |s| ==> IsBreak(s[n]))
    decreases |s|
  {
    if s != [] && s[0] != 13 && s[0] != 10 {
      StretchIs(s[1..]);
      var n := Stretch(s);
      assert s[..n] == [s[0]] + s[1..][..n - 1];
    }
  }

  lemma {:induction false} SplitFromTheFront(s: bytes)
    ensures SplitOf(s) == LinesFrom(s)
    decreases |s|
  {
    var p0, n := Split([], []), Stretch(s);
    StretchIs(s);
    if s != [] && n == 0 {
      SplitFromTheFront(s[1..]);
      BreakFirst(p0, s);
    } else if s != [] && n == |s| {
      assert s[..n] == s && [] + s == s;
      ScanWord(p0, s);
    } else if s != [] {
      SplitFromTheFront(s[n..]);
      assert [] + s[..n] + s[n..] == s;
      hide Scan;
      ScanLine(p0, [], s[..n], s[n..]);
      ScanShift([s[..n]], p0, s[n..]);
      assert [s[..n]] + [] == [s[..n]] == [] + [s[..n]];
    }
  }

  // ----- what a port does -----

  /** available() and what readBytes then returns; failed: a negative count. */
  datatype Read = Read(available: nat, failed: bool, data: bytes)
  {
    predicate Possible(size: nat)
    {
      available > 0 && |data| <= available && |data| <= size && (failed ==> data == [])
    }

    /** The read returns as much as was said to be available, up to the size of the buffer. */
    predicate Whole(size: nat) { !failed && |data| == Asked(size) }

    /** What the read asks for, and makes room for before. */
    function Asked(size: nat): nat { if available > size then size else available }
  }

  /** What was received until a read failed. */
  function Received(port: seq<Read>): bytes
  {
    if port == [] || port[0].failed then [] else port[0].data + Received(port[1..])
  }

  /** With len bytes in the buffer, each read in turn finds the room it asks for. */
  predicate Roomy(len: nat, port: seq<Read>, size: nat)
    decreases |port|
  {
    port == []
    || (len + port[0].Asked(size) <= size && (port[0].failed || Roomy(len + |port[0].data|, port[1..], size)))
  }

  function Newest(s: bytes, n: nat): bytes { if |s| <= n then s else s[|s| - n..] }

  datatype Line = NoLine | Line(from: nat, to: nat)

  class RxBuffer {
    const s: array<byte>
    var len: nat

    ghost predicate Valid()
      reads this
    {
      len <= s.Length
    }

    function Contents(): bytes
      requires Valid()
      reads this, s
    {
      s[..len]
    }

    constructor (size: nat)
      ensures Valid() && fresh(s) && s.Length == size && Contents() == []
    {
      s := new byte[size];
      len := 0;
    }

    /** getNextCompleteLine; at is where the breaks at the front end. */
    method NextCompleteLine(startIdx: nat) returns (line: Line, ghost at: nat)
      requires Valid() && startIdx <= len
      ensures startIdx <= at <= len && AllBreaks(Contents()[startIdx..at])
      ensures match line
              case NoLine => NoBreaks(Contents()[at..])
              case Line(a, e) => at == a < e < len && NoBreaks(Contents()[a..e]) && IsBreak(Contents()[e])
    {
      ghost var c := Contents();
      var start, i := startIdx, startIdx;
      while i < len
        invariant startIdx <= start <= i <= len
        invariant AllBreaks(c[startIdx..start]) && NoBreaks(c[start..i])
        decreases len - i
      {
        assert s[i] == c[i] && c[start..i + 1] == c[start..i] + [c[i]];
        if s[i] != CR && s[i] != LF {
          i := i + 1;
        } else if start == i {
          assert c[startIdx..i + 1] == c[startIdx..i] + [c[i]];
          i := i + 1;
          start := i;
        } else {
          return Line(start, i), start;
        }
      }
      assert c[start..] == c[start..i];
      return NoLine, start;
    }

    /** memmove(s + to, s + from, len - from) and the shorter length */
    method MoveDown(to: nat, from: nat)
      requires Valid() && to <= from <= len
      modifies this, s
      ensures Valid() && Contents() == old(Contents())[..to] + old(Contents())[from..]
    {
      ghost var was := Contents();
      Copy(s, to, s[from..len]);
      len := len - (from - to);
      assert s[..len] == was[..to] + was[from..];
    }

    /** removeRxBufferLine: the line, and the CRLF behind it if there is one */
    method RemoveLine(a: nat, e: nat) returns (ghost e': nat)
      requires Valid() && a <= e <= len
      modifies this, s
      ensures Valid() && e <= e' <= |old(Contents())| && AllBreaks(old(Contents())[e..e'])
      ensures var c := old(Contents()); e' == if e + 2 <= |c| && c[e..e + 2] == [CR, LF] then e + 2 else e
      ensures Contents() == old(Contents())[..a] + old(Contents())[e'..]
    {
      var end := e;
      assert e + 2 <= len ==> Contents()[e..e + 2] == [s[e], s[e + 1]];
      if e + 2 <= len && s[e] == CR && s[e + 1] == LF {
        end := e + 2;
      }
      e' := end;
      MoveDown(a, end);
    }

    /** The next line from start on, taken out of the buffer; at is where the rest begins if there is none. */
    method TakeLine(start: nat, ghost handed: seq<bytes>) returns (found: bool, text: bytes, next: nat, ghost at: nat)
      requires Valid() && start <= len && AllBreaks(Contents()[..start])
      modifies this, s
      ensures Valid() && next <= len && (found ==> len < old(len))
      ensures found ==>
                && AllBreaks(Contents()[..next])
                && Scan(Split(handed, []), old(Contents())[start..])
                   == Scan(Split(handed + [text], []), Contents()[next..])
      ensures !found ==>
                && Contents() == old(Contents()) && at <= len
                && AllBreaks(Contents()[..at]) && NoBreaks(Contents()[at..])
                && Scan(Split(handed, []), Contents()[start..]) == Split(handed, Contents()[at..])
    {
      ghost var c := Contents();
      var line;
      line, at := NextCompleteLine(start);
      assert c[..at] == c[..start] + c[start..at];
      if line.NoLine? {
        LastPart(c, start, at, handed);
        return false, [], start, at;
      }
      text := Contents()[line.from..line.to];
      LineTaken(c, start, line.from, line.to, handed);
      ghost var e' := RemoveLine(line.from, line.to);
      AfterRemoval(c, Contents(), line.from, line.to, e', handed + [text]);
      return true, text, line.from, at;
    }

    /** consumeUnsolicited: hands every complete line over and keeps the incomplete rest. */
    method ConsumeUnsolicited() returns (handed: seq<bytes>)
      requires Valid()
      modifies this, s
      ensures Valid()
      ensures Split(handed, Contents()) == SplitOf(old(Contents()))
    {
      hide Scan;
      ghost var all := SplitOf(Contents());
      handed := [];
      assert Contents()[0..] == Contents();
      var found, text, start: nat := true, [], 0;
      ghost var at: nat := 0;
      while found
        invariant Valid() && start <= len && at <= len
        invariant found ==> AllBreaks(Contents()[..start]) && Scan(Split(handed, []), Contents()[start..]) == all
        invariant !found ==>
                    all == Split(handed, Contents()[at..]) && AllBreaks(Contents()[..at]) && NoBreaks(Contents()[at..])
        decreases found, len
      {
        found, text, start, at := TakeLine(start, handed);
        if found {
          handed := handed + [text];
          at := 0;
        }
      }
      RemoveLeading(at);
    }

    /** The loop that removes the CRs and LFs at the front. */
    method RemoveLeading(ghost at: nat)
      requires Valid() && at <= len && AllBreaks(Contents()[..at]) && NoBreaks(Contents()[at..])
      modifies this, s
      ensures Valid() && Contents() == old(Contents())[at..]
    {
      ghost var c := Contents();
      var cnt := 0;
      assert at < |c| ==> c[at..][0] == c[at];
      while cnt < len && (s[cnt] == CR || s[cnt] == LF)
        invariant cnt <= at
      {
        assert s[cnt] == c[cnt];
        cnt := cnt + 1;
      }
      StopsAtWord(c, at, cnt);
      MoveDown(0, cnt);
      assert [] + c[at..] == c[at..];
    }

    /** One step of consumeUnsolicitedInCommandResponse: a line is consumed, or kept and stepped over. */
    method StepInCommand(start: nat, urc: bytes -> bool, ghost seen: seq<bytes>)
      returns (found: bool, next: nat, ghost text: bytes)
      requires Valid() && start <= len && Stepped(Contents(), start, urc, seen)
      modifies this, s
      ensures Valid() && next <= len
      ensures found ==>
                && Stepped(Contents(), next, urc, seen + [text]) && len - next < old(len) - start
                && Scan(Split(seen, []), old(Contents())[start..])
                   == Scan(Split(seen + [text], []), Contents()[next..])
      ensures !found ==>
                && Contents() == old(Contents())
                && var p := Scan(Split(seen, []), Contents()[start..]);
                   p.lines == seen && SplitOf(Contents()) == Split(Kept(seen, urc), p.tail)
    {
      hide Scan, Kept, SplitOf, Stepped;
      ghost var c := Contents();
      var line;
      ghost var at;
      line, at := NextCompleteLine(start);
      if line.NoLine? {
        LastStep(c, start, at, urc, seen);
        text := [];
        return false, start, text;
      }
      var l := Contents()[line.from..line.to];
      text := l;
      LineTaken(c, start, line.from, line.to, seen);
      var consumed := urc(l);
      if consumed {
        next := line.from;
        RemovedStep(c, start, line.from, line.to, urc, seen);
        ghost var e' := RemoveLine(line.from, line.to);
        AfterRemoval(c, Contents(), line.from, line.to, e', seen + [text]);
        SteppedAt(Contents(), next, urc, seen + [text]);
      } else {
        next := line.from + |l|;
        KeptStep(c, start, line.from, line.to, urc, seen);
      }
      found := true;
    }

    /**
     * consumeUnsolicitedInCommandResponse: the lines that are unsolicited are
     * taken out; the others and the incomplete rest stay, in their order.
     */
    method ConsumeInCommand(urc: bytes -> bool)
      requires Valid()
      modifies this, s
      ensures Valid()
      ensures var p := SplitOf(old(Contents())); SplitOf(Contents()) == Split(Kept(p.lines, urc), p.tail)
    {
      hide Scan, Kept;
      ghost var all := SplitOf(Contents());
      ghost var seen: seq<bytes> := [];
      NothingSeen(Contents(), urc);
      var found, start: nat := true, 0;
      while found
        invariant Valid() && start <= len
        invariant found ==> Stepped(Contents(), start, urc, seen) && Scan(Split(seen, []), Contents()[start..]) == all
        invariant !found ==> SplitOf(Contents()) == Split(Kept(all.lines, urc), all.tail)
        decreases found, len - start
      {
        ghost var text;
        found, start, text := StepInCommand(start, urc, seen);
        if found {
          seen := seen + [text];
        }
      }
    }

    /** One round of draining: room is made at the front, then the read goes behind. */
    method DrainOnce(r: Read) returns (ghost shift: nat)
      requires Valid() && r.Possible(s.Length)
      modifies this, s
      ensures Valid() && shift <= |old(Contents())|
      ensures Contents() == old(Contents())[shift..] + r.data
      ensures shift == 0 <==> |old(Contents())| + r.Asked(s.Length) <= s.Length
      ensures r.Whole(s.Length) && shift > 0 ==> len == s.Length
    {
      var available := r.Asked(s.Length);
      ghost var c := Contents();
      shift := 0;
      if available > s.Length - len {
        shift := available - (s.Length - len);
        MoveDown(0, available - (s.Length - len));
        assert [] + c[shift..] == c[shift..];
      }
      Append(r.data);
    }

    /** What a read wrote behind the contents. */
    method Append(data: bytes)
      requires Valid() && len + |data| <= s.Length
      modifies this, s
      ensures Valid() && Contents() == old(Contents()) + data
    {
      ghost var before := Contents();
      Copy(s, len, data);
      len := len + |data|;
      assert s[..len] == before + data;
    }

    /**
     * drainModemRxToBuffer against what the port does: what is available and
     * what a read then returns. The newest bytes stay, and never too many.
     */
    method Drain(port: seq<Read>) returns (total: nat)
      requires Valid() && forall i :: 0 <= i < |port| ==> port[i].Possible(s.Length)
      modifies this, s
      ensures Valid()
      ensures exists k :: 0 <= k <= |old(Contents()) + Received(port)|
                          && Contents() == (old(Contents()) + Received(port))[k..]
      ensures (forall i :: 0 <= i < |port| ==> port[i].Whole(s.Length)) ==>
                Contents() == Newest(old(Contents()) + Received(port), s.Length)
      ensures Contents() == old(Contents()) + Received(port) <==> Roomy(|old(Contents())|, port, s.Length)
    {
      hide Received, Roomy, Newest, Drained;
      ghost var was, k: nat := Contents(), 0;
      total := 0;
      DrainBegins(was, port, s.Length);
      for i := 0 to |port|
        invariant Valid() && Drained(was, port, i, s.Length, Contents(), k)
      {
        ghost var before := Contents();
        ghost var shift := DrainOnce(port[i]);
        DrainGoesOn(was, port, i, s.Length, before, k, shift, Contents());
        if port[i].failed {
          DrainStops(was, port, i, s.Length, before, k, shift, Contents());
          return;
        }
        total := total + |port[i].data|;
        k := k + shift;
      }
      DrainEnds(was, port, s.Length, Contents(), k);
    }

    /** handleRxOnTimer, outside of commands: what has come is drained, then consumed. */
    method HandleRxOnTimer(port: seq<Read>) returns (handed: seq<bytes>)
      requires Valid() && forall i :: 0 <= i < |port| ==> port[i].Possible(s.Length)
      modifies this, s
      ensures Valid()
      ensures Roomy(|old(Contents())|, port, s.Length) ==>
                Split(handed, Contents()) == SplitOf(old(Contents()) + Received(port))
    {
      var total := Drain(port);
      handed := [];
      if len > 0 {
        handed := ConsumeUnsolicited();
      }
    }

    /**
     * Any number of such timer events on a buffer that was empty: as long as
     * each finds room, the lines handed over and the rest in the buffer are
     * those of all bytes received.
     */
    method HandleAll(ports: seq<seq<Read>>) returns (handed: seq<bytes>)
      requires Valid() && Contents() == []
      requires forall i, j :: 0 <= i < |ports| && 0 <= j < |ports[i]| ==> ports[i][j].Possible(s.Length)
      modifies this, s
      ensures Valid()
      ensures AllRoomy(ports, s.Length) ==> Split(handed, Contents()) == SplitOf(Stream(Chunks(ports)))
    {
      hide Roomy, Received, Scan;
      handed := [];
      ghost var fits := AllRoomy(ports, s.Length);
      NoStream();
      for i := 0 to |ports|
        invariant Valid()
        invariant fits ==> Split(handed, Contents()) == SplitOf(Stream(Chunks(ports[..i])))
      {
        ghost var was := Contents();
        var more := HandleRxOnTimer(ports[i]);
        if fits {
          ChunkNext(ports, i, handed, was, more, Contents());
        }
        handed := handed + more;
      }
      assert ports[..|ports|] == ports;
    }
  }

  lemma StopsAtWord(c: bytes, at: nat, cnt: nat)
    requires cnt <= at <= |c| && AllBreaks(c[..at]) && (cnt < |c| ==> !IsBreak(c[cnt]))
    ensures cnt == at
  {
    assert forall i :: 0 <= i < at ==> c[..at][i] == c[i];
  }

  lemma LineTaken(c: bytes, start: nat, a: nat, e: nat, handed: seq<bytes>)
    requires start <= a < e < |c| && AllBreaks(c[start..a]) && NoBreaks(c[a..e]) && IsBreak(c[e])
    ensures Scan(Split(handed, []), c[start..]) == Scan(Split(handed + [c[a..e]], []), c[e..])
  {
    assert c[start..] == c[start..a] + c[a..e] + c[e..];
    ScanLine(Split(handed, []), c[start..a], c[a..e], c[e..]);
  }

  lemma AfterRemoval(c: bytes, now: bytes, a: nat, e: nat, e': nat, handed: seq<bytes>)
    requires a <= e <= e' <= |c| && AllBreaks(c[e..e']) && now == c[..a] + c[e'..]
    ensures now[a..] == c[e'..] && now[..a] == c[..a]
    ensures Scan(Split(handed, []), now[a..]) == Scan(Split(handed, []), c[e..])
  {
    assert c[e..] == c[e..e'] + c[e'..];
    ScanJoin(Split(handed, []), c[e..e'], c[e'..]);
    ScanBreaks(Split(handed, []), c[e..e']);
  }

  lemma LastPart(c: bytes, start: nat, at: nat, handed: seq<bytes>)
    requires start <= at <= |c| && AllBreaks(c[start..at]) && NoBreaks(c[at..])
    ensures Scan(Split(handed, []), c[start..]) == Split(handed, c[at..])
  {
    assert c[start..] == c[start..at] + c[at..];
    ScanJoin(Split(handed, []), c[start..at], c[at..]);
    ScanBreaks(Split(handed, []), c[start..at]);
    ScanWord(Split(handed, []), c[at..]);
    assert [] + c[at..] == c[at..];
  }

  // ----- taking lines out of a response -----

  /** The lines that are not unsolicited. */
  function Kept(lines: seq<bytes>, urc: bytes -> bool): seq<bytes>
  {
    if lines == [] then []
    else
      var l := lines[|lines| - 1];
      Kept(lines[..|lines| - 1], urc) + if urc(l) then [] else [l]
  }

  /** They are just the lines that are not unsolicited. */
  lemma {:induction false} KeptAre(lines: seq<bytes>, urc: bytes -> bool)
    ensures forall l :: l in Kept(lines, urc) <==> l in lines && !urc(l)
    decreases |lines|
  {
    if lines != [] {
      var n := |lines| - 1;
      KeptAre(lines[..n], urc);
      assert lines == lines[..n] + [lines[n]];
    }
  }

  lemma KeptNext(lines: seq<bytes>, l: bytes, urc: bytes -> bool)
    ensures Kept(lines + [l], urc) == Kept(lines, urc) + if urc(l) then [] else [l]
  {
    assert (lines + [l])[..|lines|] == lines;
  }

  function Flush(p: Split): seq<bytes> { if p.tail == [] then p.lines else p.lines + [p.tail] }

  /** Before start there are just the lines that were seen and kept, and start does not divide a line. */
  ghost predicate Stepped(c: bytes, start: nat, urc: bytes -> bool, seen: seq<bytes>)
    requires start <= |c|
  {
    && Flush(SplitOf(c[..start])) == Kept(seen, urc)
    && (SplitOf(c[..start]).tail == [] || (start < |c| && IsBreak(c[start])))
  }

  lemma NothingSeen(c: bytes, urc: bytes -> bool)
    ensures Stepped(c, 0, urc, []) && c[0..] == c
  {
  }

  /** Some breaks end the line that was left open. */
  lemma BreaksClose(p: Split, breaks: bytes)
    requires AllBreaks(breaks) && (p.tail == [] || breaks != [])
    ensures Scan(p, breaks) == Split(Flush(p), [])
  {
    if p.tail == [] {
      ScanBreaks(p, breaks);
    } else {
      BreakFirst(p, breaks);
      ScanBreaks(Feed(p, breaks[0]), breaks[1..]);
    }
  }

  lemma UpTo(c: bytes, start: nat, a: nat)
    requires start <= a <= |c| && AllBreaks(c[start..a])
    requires SplitOf(c[..start]).tail == [] || start < a
    ensures SplitOf(c[..a]) == Split(Flush(SplitOf(c[..start])), [])
  {
    assert c[..a] == c[..start] + c[start..a];
    ScanJoin(Split([], []), c[..start], c[start..a]);
    BreaksClose(SplitOf(c[..start]), c[start..a]);
  }

  lemma BreakBefore(c: bytes, start: nat, a: nat, e: nat)
    requires start <= a < e <= |c| && NoBreaks(c[a..e]) && IsBreak(c[start])
    ensures start < a
  {
    assert c[a..e][0] == c[a];
  }

  lemma RemovedStep(c: bytes, start: nat, a: nat, e: nat, urc: bytes -> bool, seen: seq<bytes>)
    requires start <= a < e < |c| && AllBreaks(c[start..a]) && NoBreaks(c[a..e]) && IsBreak(c[e])
    requires Stepped(c, start, urc, seen) && urc(c[a..e])
    ensures SplitOf(c[..a]) == Split(Kept(seen + [c[a..e]], urc), [])
  {
    if IsBreak(c[start]) {
      BreakBefore(c, start, a, e);
    }
    UpTo(c, start, a);
    KeptNext(seen, c[a..e], urc);
  }

  lemma SteppedAt(c: bytes, a: nat, urc: bytes -> bool, seen: seq<bytes>)
    requires a <= |c| && SplitOf(c[..a]) == Split(Kept(seen, urc), [])
    ensures Stepped(c, a, urc, seen)
  {
    hide Scan, Kept;
  }

  lemma KeptStep(c: bytes, start: nat, a: nat, e: nat, urc: bytes -> bool, seen: seq<bytes>)
    requires start <= a < e < |c| && AllBreaks(c[start..a]) && NoBreaks(c[a..e]) && IsBreak(c[e])
    requires Stepped(c, start, urc, seen) && !urc(c[a..e])
    ensures Stepped(c, e, urc, seen + [c[a..e]])
  {
    if IsBreak(c[start]) {
      BreakBefore(c, start, a, e);
    }
    UpTo(c, start, a);
    hide Scan, Kept, Feed;
    var line, p := c[a..e], SplitOf(c[..a]);
    KeptNext(seen, line, urc);
    assert c[..e] == c[..a] + line;
    ScanJoin(Split([], []), c[..a], line);
    ScanWord(p, line);
    assert [] + line == line;
    assert SplitOf(c[..e]) == Split(Kept(seen, urc), line);
  }

  lemma LastStep(c: bytes, start: nat, at: nat, urc: bytes -> bool, seen: seq<bytes>)
    requires start <= at <= |c| && AllBreaks(c[start..at]) && NoBreaks(c[at..]) && Stepped(c, start, urc, seen)
    ensures var p := Scan(Split(seen, []), c[start..]);
            p.lines == seen && SplitOf(c) == Split(Kept(seen, urc), p.tail)
  {
    LastPart(c, start, at, seen);
    if start == at && start < |c| {
      assert c[at..][0] == c[start];
    }
    UpTo(c, start, at);
    assert c == c[..at] + c[at..];
    ScanJoin(Split([], []), c[..at], c[at..]);
    ScanWord(SplitOf(c[..at]), c[at..]);
    assert [] + c[at..] == c[at..];
  }

  // ----- streams -----

  /** The bytes arrive in chunks, each followed by consumeUnsolicited. */
  ghost function AfterChunks(chunks: seq<bytes>): Split
  {
    if chunks == [] then Split([], [])
    else
      var p := AfterChunks(chunks[..|chunks| - 1]);
      var q := SplitOf(p.tail + chunks[|chunks| - 1]);
      Split(p.lines + q.lines, q.tail)
  }

  ghost function Stream(chunks: seq<bytes>): bytes
  {
    if chunks == [] then [] else Stream(chunks[..|chunks| - 1]) + chunks[|chunks| - 1]
  }

  lemma TailHasNoBreaks(s: bytes)
    ensures NoBreaks(SplitOf(s).tail)
  {
    if s != [] {
      TailHasNoBreaks(s[..|s| - 1]);
    }
  }

  /** However the stream was cut into chunks, the lines handed over are the lines of the stream. */
  lemma {:induction false} ChunksDoNotMatter(chunks: seq<bytes>)
    ensures AfterChunks(chunks) == SplitOf(Stream(chunks))
    decreases |chunks|
  {
    if chunks != [] {
      var n := |chunks| - 1;
      var front, last := Stream(chunks[..n]), chunks[n];
      ChunksDoNotMatter(chunks[..n]);
      var p := SplitOf(front);
      ScanJoin(Split([], []), front, last);
      ScanJoin(Split([], []), p.tail, last);
      TailHasNoBreaks(front);
      ScanWord(Split([], []), p.tail);
      assert [] + p.tail == p.tail;
      ScanShift(p.lines, Split([], p.tail), last);
      assert p.lines + [] == p.lines;
    }
  }

  /** What each timer event receives. */
  function Chunks(ports: seq<seq<Read>>): seq<bytes>
  {
    seq(|ports|, i requires 0 <= i < |ports| => Received(ports[i]))
  }

  /** Every timer event finds room behind what the earlier ones left of the stream. */
  ghost predicate AllRoomy(ports: seq<seq<Read>>, size: nat)
  {
    forall i :: 0 <= i < |ports| ==> Roomy(|SplitOf(Stream(Chunks(ports[..i]))).tail|, ports[i], size)
  }

  lemma NoStream()
    ensures SplitOf(Stream(Chunks([]))) == Split([], [])
  {
  }

  lemma ChunkNext(ports: seq<seq<Read>>, i: nat, handed: seq<bytes>, was: bytes, more: seq<bytes>, now: bytes)
    requires i < |ports| && Split(handed, was) == SplitOf(Stream(Chunks(ports[..i])))
    requires Split(more, now) == SplitOf(was + Received(ports[i]))
    ensures Split(handed + more, now) == SplitOf(Stream(Chunks(ports[..i + 1])))
  {
    hide Scan, Received;
    var chunks := Chunks(ports[..i + 1]);
    assert chunks[..i] == Chunks(ports[..i]) && chunks[i] == Received(ports[i]);
    ChunksDoNotMatter(chunks[..i]);
    ChunksDoNotMatter(chunks);
  }

  lemma RoomyNext(len: nat, port: seq<Read>, i: nat, size: nat)
    requires i < |port|
    ensures Roomy(len, port[i..], size)
       <==> len + port[i].Asked(size) <= size && (port[i].failed || Roomy(len + |port[i].data|, port[i + 1..], size))
  {
    assert port[i..][1..] == port[i + 1..];
  }

  // ----- draining -----

  lemma ReceivedNone(port: seq<Read>)
    ensures Received(port[..0]) == []
  {
  }

  lemma {:induction false} ReceivedNext(port: seq<Read>, i: nat)
    requires i < |port| && forall j :: 0 <= j < i ==> !port[j].failed
    ensures Received(port[..i + 1]) == Received(port[..i]) + (if port[i].failed then [] else port[i].data)
    decreases i
  {
    var q := port[..i + 1];
    if i == 0 {
      assert q[1..] == [];
    } else {
      assert q[1..] == port[1..][..i] && port[..i][1..] == port[1..][..i - 1];
      ReceivedNext(port[1..], i - 1);
    }
  }

  lemma {:induction false} ReceivedStops(port: seq<Read>, i: nat)
    requires i < |port| && port[i].failed && forall j :: 0 <= j < i ==> !port[j].failed
    ensures Received(port) == Received(port[..i])
    decreases i
  {
    if i > 0 {
      ReceivedStops(port[1..], i - 1);
      assert port[1..][..i - 1] == port[..i][1..];
    }
  }

  /** After i reads: what is left of the old contents and what was received, without the first k bytes. */
  ghost predicate Drained(was: bytes, port: seq<Read>, i: nat, size: nat, now: bytes, k: nat)
  {
    && i <= |port| && (forall j :: 0 <= j < i ==> !port[j].failed)
    && var stream := was + Received(port[..i]);
       && k <= |stream| && now == stream[k..]
       && ((forall j :: 0 <= j < i ==> port[j].Whole(size)) ==> now == Newest(stream, size))
       && (Roomy(|was|, port, size) <==> k == 0 && Roomy(|now|, port[i..], size))
  }

  lemma DrainBegins(was: bytes, port: seq<Read>, size: nat)
    requires |was| <= size
    ensures Drained(was, port, 0, size, was, 0)
  {
    ReceivedNone(port);
    assert was + [] == was && port[0..] == port;
    hide Roomy;
  }

  /** What one more read does to the stream, whether it failed or not. */
  lemma DrainGoesOn(was: bytes, port: seq<Read>, i: nat, size: nat, before: bytes, k: nat, shift: nat, now: bytes)
    requires Drained(was, port, i, size, before, k) && i < |port| && shift <= |before|
    requires now == before[shift..] + port[i].data && (port[i].failed ==> port[i].data == []) && |now| <= size
    requires shift == 0 <==> |before| + port[i].Asked(size) <= size
    requires port[i].Whole(size) && shift > 0 ==> |now| == size
    ensures !port[i].failed ==> Drained(was, port, i + 1, size, now, k + shift)
  {
    var stream, data := was + Received(port[..i]), port[i].data;
    ReceivedNext(port, i);
    RoomyNext(|before|, port, i, size);
    hide Roomy, Received;
    assert stream + data == was + (Received(port[..i]) + data);
    Slid(stream, k, shift, data, size);
    hide Newest;
  }

  lemma DrainStops(was: bytes, port: seq<Read>, i: nat, size: nat, before: bytes, k: nat, shift: nat, now: bytes)
    requires Drained(was, port, i, size, before, k) && i < |port| && shift <= |before|
    requires now == before[shift..] + port[i].data && port[i].failed && port[i].data == []
    requires shift == 0 <==> |before| + port[i].Asked(size) <= size
    ensures var all := was + Received(port); k + shift <= |all| && now == all[k + shift..]
    ensures now == was + Received(port) <==> Roomy(|was|, port, size)
    ensures !port[i].Whole(size)
  {
    ReceivedStops(port, i);
    RoomyNext(|before|, port, i, size);
    hide Roomy, Received, Newest;
    var all := was + Received(port);
    assert before[shift..] + [] == all[k..][shift..] == all[k + shift..];
  }

  lemma DrainEnds(was: bytes, port: seq<Read>, size: nat, now: bytes, k: nat)
    requires Drained(was, port, |port|, size, now, k)
    ensures var all := was + Received(port);
            && k <= |all| && now == all[k..] && (now == all <==> Roomy(|was|, port, size))
            && ((forall j :: 0 <= j < |port| ==> port[j].Whole(size)) ==> now == Newest(all, size))
  {
    assert port[..|port|] == port && port[|port|..] == [];
    hide Received, Newest;
  }

  lemma Slid(stream: bytes, k: nat, shift: nat, data: bytes, size: nat)
    requires k <= |stream| && shift <= |stream[k..]|
    ensures stream[k..][shift..] + data == (stream + data)[k + shift..]
    ensures stream[k..] == Newest(stream, size) && |stream[k..]| + |data| - shift <= size
            && (shift > 0 ==> |stream[k..]| - shift + |data| == size) ==>
              (stream + data)[k + shift..] == Newest(stream + data, size)
  {
    assert stream[k..][shift..] == stream[k + shift..];
  }
}
