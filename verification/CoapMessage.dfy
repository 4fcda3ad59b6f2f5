/** CoAP messages: printing, parsing, and that each undoes the other (CoAPMessage.cpp; section 3 of RFC 7252). */
module CoapMessage {
  import opened Bytes
  import opened CoapOption

  const PAYLOAD_MARKER: byte := 0xff

  datatype Message = Message(version: nat, mtype: nat, codeClass: nat, codeDetail: nat, messageId: nat,
                             tokenLength: nat, token: nat, options: seq<CoapOption>, payload: bytes)

  predicate IsEmptyMessage(m: Message) { m.codeClass == 0 && m.codeDetail == 0 }

  // ----- the order in which options are encoded -----

  /** The options with this number, as they come. */
  function OfNumber(opts: seq<CoapOption>, n: nat): seq<CoapOption>
  {
    if opts == [] then []
    else OfNumber(opts[..|opts| - 1], n) + (if opts[|opts| - 1].number == n then [opts[|opts| - 1]] else [])
  }

  /** The least number above n, or 0 if there is none. */
  function NextNumber(opts: seq<CoapOption>, n: nat): (r: nat)
    ensures r == 0 || r > n
    ensures r == 0 ==> forall i :: 0 <= i < |opts| ==> opts[i].number <= n
    ensures r != 0 ==> (exists i :: 0 <= i < |opts| && opts[i].number == r)
                       && forall i :: 0 <= i < |opts| ==> opts[i].number <= n || opts[i].number >= r
  {
    if opts == [] then 0
    else
      var k := |opts| - 1;
      assert forall i :: 0 <= i < k ==> opts[..k][i] == opts[i];
      var r, x := NextNumber(opts[..k], n), opts[k].number;
      if x > n && (r == 0 || x < r) then x else r
  }

  function Above(opts: seq<CoapOption>, n: nat): nat
  {
    if opts == [] then 0
    else Above(opts[..|opts| - 1], n) + (if opts[|opts| - 1].number > n then 1 else 0)
  }

  lemma {:induction false} FewerAbove(opts: seq<CoapOption>, n: nat, m: nat)
    requires n < m
    ensures Above(opts, m) <= Above(opts, n)
    ensures (exists i :: 0 <= i < |opts| && opts[i].number == m) ==> Above(opts, m) < Above(opts, n)
    decreases |opts|
  {
    if opts != [] {
      var k := |opts| - 1;
      FewerAbove(opts[..k], n, m);
      if i :| 0 <= i < |opts| && opts[i].number == m && i < k {
        assert opts[..k][i].number == m;
      }
    }
  }

  /** The options from number n on: those with number n, then those with the next number, and so on. */
  function Selected(opts: seq<CoapOption>, n: nat): seq<CoapOption>
    decreases Above(opts, n)
  {
    var next := NextNumber(opts, n);
    if next == 0 then OfNumber(opts, n)
    else
      FewerAbove(opts, n, next);
      OfNumber(opts, n) + Selected(opts, next)
  }

  ghost predicate Ascending(opts: seq<CoapOption>)
  {
    forall i, j :: 0 <= i < j < |opts| ==> opts[i].number <= opts[j].number
  }

  lemma {:induction false} OfNumberAll(opts: seq<CoapOption>, n: nat)
    ensures forall o :: o in OfNumber(opts, n) ==> o.number == n
    decreases |opts|
  {
    if opts != [] {
      OfNumberAll(opts[..|opts| - 1], n);
    }
  }

  lemma {:induction false} OfNumberJoin(a: seq<CoapOption>, b: seq<CoapOption>, n: nat)
    ensures OfNumber(a + b, n) == OfNumber(a, n) + OfNumber(b, n)
    decreases |b|
  {
    if b == [] {
      assert a + b == a;
    } else {
      OfNumberJoin(a, b[..|b| - 1], n);
      assert (a + b)[..|a + b| - 1] == a + b[..|b| - 1];
    }
  }

  lemma {:induction false} OfNumberSame(opts: seq<CoapOption>, n: nat)
    requires forall o :: o in opts ==> o.number == n
    ensures OfNumber(opts, n) == opts
    decreases |opts|
  {
    if opts != [] {
      var k := |opts| - 1;
      assert opts == opts[..k] + [opts[k]];
      OfNumberSame(opts[..k], n);
    }
  }

  lemma {:induction false} OfNumberOther(opts: seq<CoapOption>, n: nat)
    requires forall o :: o in opts ==> o.number != n
    ensures OfNumber(opts, n) == []
    decreases |opts|
  {
    if opts != [] {
      OfNumberOther(opts[..|opts| - 1], n);
      assert opts[|opts| - 1] in opts;
    }
  }

  lemma {:induction false} SelectedAtLeast(opts: seq<CoapOption>, n: nat)
    ensures forall o :: o in Selected(opts, n) ==> o.number >= n
    ensures Ascending(Selected(opts, n))
    decreases Above(opts, n)
  {
    OfNumberAll(opts, n);
    var next := NextNumber(opts, n);
    var first := OfNumber(opts, n);
    assert forall i :: 0 <= i < |first| ==> first[i] in first;
    if next != 0 {
      FewerAbove(opts, n, next);
      SelectedAtLeast(opts, next);
      var rest := Selected(opts, next);
      assert forall i :: 0 <= i < |rest| ==> rest[i] in rest;
    }
  }

  /** No option from n on is lost, none is doubled, and those of one number stay in their order. */
  lemma {:induction false} SelectedKeeps(opts: seq<CoapOption>, n: nat, k: nat)
    ensures OfNumber(Selected(opts, n), k) == if k >= n then OfNumber(opts, k) else []
    decreases Above(opts, n)
  {
    SelectedAtLeast(opts, n);
    var next := NextNumber(opts, n);
    var first := OfNumber(opts, n);
    OfNumberAll(opts, n);
    if k < n {
      OfNumberOther(Selected(opts, n), k);
    } else if next == 0 {
      if k == n {
        OfNumberSame(first, n);
      } else {
        OfNumberOther(first, k);
        NoneAbove(opts, n, k);
      }
    } else {
      FewerAbove(opts, n, next);
      SelectedKeeps(opts, next, k);
      OfNumberJoin(first, Selected(opts, next), k);
      if k == n {
        OfNumberSame(first, n);
      } else {
        OfNumberOther(first, k);
        if k < next {
          NoneBetween(opts, n, next, k);
        }
      }
    }
  }

  lemma NoneAbove(opts: seq<CoapOption>, n: nat, k: nat)
    requires NextNumber(opts, n) == 0 && k > n
    ensures OfNumber(opts, k) == []
  {
    OfNumberOther(opts, k);
  }

  lemma NoneBetween(opts: seq<CoapOption>, n: nat, next: nat, k: nat)
    requires NextNumber(opts, n) == next && n < k < next
    ensures OfNumber(opts, k) == []
  {
    OfNumberOther(opts, k);
  }

  function Ordered(opts: seq<CoapOption>): seq<CoapOption> { Selected(opts, 0) }

  /** The options are encoded in a stable sort by number. */
  lemma OrderedIsStableSort(opts: seq<CoapOption>)
    ensures Ascending(Ordered(opts))
    ensures forall k :: OfNumber(Ordered(opts), k) == OfNumber(opts, k)
  {
    SelectedAtLeast(opts, 0);
    forall k ensures OfNumber(Ordered(opts), k) == OfNumber(opts, k) {
      SelectedKeeps(opts, 0, k);
    }
  }

  /** There is only one stable sort. */
  lemma {:induction false} StableSortUnique(a: seq<CoapOption>, b: seq<CoapOption>)
    requires Ascending(a) && Ascending(b) && forall k :: OfNumber(a, k) == OfNumber(b, k)
    ensures a == b
    decreases |a|
  {
    if a == [] {
      if b != [] {
        LastOfNumber(b);
      }
    } else {
      LastOfNumber(a);
      var x := a[|a| - 1];
      HasNumber(b, x.number);
      LastOfNumber(b);
      var y := b[|b| - 1];
      HasNumber(a, y.number);
      assert x.number == y.number && x == y;
      var a', b' := a[..|a| - 1], b[..|b| - 1];
      forall k ensures OfNumber(a', k) == OfNumber(b', k) {
        assert OfNumber(a, k) == OfNumber(b, k);
        WithoutLast(OfNumber(a', k), OfNumber(b', k), if x.number == k then [x] else []);
      }
      StableSortUnique(a', b');
    }
  }

  lemma WithoutLast(a: seq<CoapOption>, b: seq<CoapOption>, t: seq<CoapOption>)
    requires a + t == b + t
    ensures a == b
  {
    assert a == (a + t)[..|a + t| - |t|] && b == (b + t)[..|b + t| - |t|];
  }

  lemma LastOfNumber(a: seq<CoapOption>)
    requires a != []
    ensures var x := a[|a| - 1]; var f := OfNumber(a, x.number); f != [] && f[|f| - 1] == x
  {
  }

  lemma HasNumber(a: seq<CoapOption>, n: nat)
    requires OfNumber(a, n) != []
    ensures exists i :: 0 <= i < |a| && a[i].number == n
  {
    if forall i :: 0 <= i < |a| ==> a[i].number != n {
      OfNumberOther(a, n);
    }
  }

  lemma AscendingStays(opts: seq<CoapOption>)
    requires Ascending(opts)
    ensures Ordered(opts) == opts
  {
    OrderedIsStableSort(opts);
    StableSortUnique(Ordered(opts), opts);
  }

  // ----- printing -----

  function LastNumber(opts: seq<CoapOption>, previous: nat): nat
  {
    if opts == [] then previous else opts[|opts| - 1].number
  }

  predicate AllProper(opts: seq<CoapOption>) { forall o :: o in opts ==> Proper(o.value) }

  predicate PrintableOption(o: CoapOption, previous: nat)
    requires Proper(o.value)
  {
    previous <= o.number <= previous + EXT_MAX && |ValueBytes(o.value)| <= EXT_MAX
  }

  predicate Printable(opts: seq<CoapOption>, previous: nat)
    requires AllProper(opts)
  {
    opts == [] || (PrintableOption(opts[0], previous) && Printable(opts[1..], opts[0].number))
  }

  function PrintOptions(opts: seq<CoapOption>, previous: nat): bytes
    requires AllProper(opts) && Printable(opts, previous)
  {
    if opts == [] then []
    else OptionBytes(opts[0].number - previous, ValueBytes(opts[0].value)) + PrintOptions(opts[1..], opts[0].number)
  }

  lemma ProperJoin(a: seq<CoapOption>, b: seq<CoapOption>)
    requires AllProper(a) && AllProper(b)
    ensures AllProper(a + b)
  {
  }

  lemma {:induction false} PrintJoin(a: seq<CoapOption>, b: seq<CoapOption>, previous: nat)
    requires AllProper(a) && AllProper(b) && AllProper(a + b)
    ensures Printable(a + b, previous) <==> Printable(a, previous) && Printable(b, LastNumber(a, previous))
    ensures Printable(a + b, previous) ==>
              PrintOptions(a + b, previous) == PrintOptions(a, previous) + PrintOptions(b, LastNumber(a, previous))
    decreases |a|
  {
    hide OptionBytes, ValueBytes, PrintableOption, Proper, Printable, PrintOptions;
    PrintUnfolds(a + b, previous);
    PrintUnfolds(a, previous);
    if a == [] {
      assert a + b == b;
      if Printable(b, previous) {
        assert [] + PrintOptions(b, previous) == PrintOptions(b, previous);
      }
    } else {
      var rest := a[1..] + b;
      assert (a + b)[0] == a[0] && (a + b)[1..] == rest;
      ProperTail(a + b);
      ProperTail(a);
      PrintJoin(a[1..], b, a[0].number);
      assert LastNumber(a[1..], a[0].number) == LastNumber(a, previous);
    }
  }

  lemma ProperTail(opts: seq<CoapOption>)
    requires opts != [] && AllProper(opts)
    ensures AllProper(opts[1..]) && Proper(opts[0].value)
  {
  }

  lemma PrintUnfolds(opts: seq<CoapOption>, previous: nat)
    requires AllProper(opts)
    ensures opts == [] ==> Printable(opts, previous) && PrintOptions(opts, previous) == []
    ensures opts != [] ==>
              && AllProper(opts[1..])
              && (Printable(opts, previous)
                  <==> PrintableOption(opts[0], previous) && Printable(opts[1..], opts[0].number))
              && (Printable(opts, previous) ==>
                    PrintOptions(opts, previous)
                    == OptionBytes(opts[0].number - previous, ValueBytes(opts[0].value))
                       + PrintOptions(opts[1..], opts[0].number))
  {
    hide OptionBytes, ValueBytes;
  }

  predicate HeaderOk(m: Message)
  {
    && m.version <= 3 && m.mtype <= 3 && m.tokenLength <= 8 && m.codeClass <= 7 && m.codeDetail <= 31
    && (IsEmptyMessage(m) ==> m.tokenLength == 0 && m.options == [] && m.payload == [])
  }

  function HeaderBytes(m: Message): bytes
    requires m.version <= 3 && m.mtype <= 3 && m.tokenLength <= 8 && m.codeClass <= 7 && m.codeDetail <= 31
  {
    [64 * m.version + 16 * m.mtype + m.tokenLength, 32 * m.codeClass + m.codeDetail] + PutBE(m.messageId, 2)
  }

  function PayloadBytes(payload: bytes): bytes
  {
    if payload == [] then [] else [PAYLOAD_MARKER] + payload
  }

  ghost predicate CanPrint(m: Message)
    requires AllProper(m.options)
  {
    HeaderOk(m) && AllProper(Ordered(m.options)) && Printable(Ordered(m.options), 0)
  }

  function PrintMessage(m: Message): bytes
    requires HeaderOk(m) && AllProper(Ordered(m.options)) && Printable(Ordered(m.options), 0)
  {
    HeaderBytes(m) + PutBE(m.token, m.tokenLength) + PrintOptions(Ordered(m.options), 0) + PayloadBytes(m.payload)
  }

  // ----- parsing -----

  datatype Options = BadOptions | Options(list: seq<CoapOption>, rest: bytes)

  function ParseOptions(s: bytes, previous: nat): Options
    decreases |s|
  {
    if s == [] || s[0] == PAYLOAD_MARKER then Options([], s)
    else
      match ParseOption(s)
      case Bad => BadOptions
      case Parsed(delta, data, rest) =>
        match Interpret(previous + delta, data)
        case Nothing => BadOptions
        case Just(v) =>
          if |rest| >= |s| then BadOptions      // never: an option has at least one byte
          else
            match ParseOptions(rest, previous + delta)
            case BadOptions => BadOptions
            case Options(list, rest') => Options([CoapOption(previous + delta, v)] + list, rest')
  }

  function ParseMessage(s: bytes): Maybe<Message>
  {
    if |s| < 4 || s[0] / 64 != 1 || s[0] % 16 > 8 then Nothing
    else
      var tkl, codeClass, codeDetail := s[0] % 16, s[1] / 32, s[1] % 32;
      if codeClass == 0 && codeDetail == 0 && (tkl != 0 || |s| > 4) then Nothing
      else if |s| < 4 + tkl then Nothing
      else
        match ParseOptions(s[4 + tkl..], 0)
        case BadOptions => Nothing
        case Options(list, rest) =>
          if |rest| == 1 then Nothing
          else
            Just(Message(1, s[0] / 16 % 4, codeClass, codeDetail, GetBE(s[2..4]), tkl, GetBE(s[4..4 + tkl]), list,
                         if rest == [] then [] else rest[1..]))
  }

  // ----- decode after encode -----

  ghost predicate WellFormed(m: Message)
  {
    && AllProper(m.options) && CanPrint(m) && m.version == 1 && m.messageId < 0x1_0000 && m.token < Pow256(m.tokenLength)
    && InFormat(m.options)
  }

  lemma ParseStep(s: bytes, previous: nat, delta: nat, data: bytes, rest: bytes, v: Value)
    requires s != [] && s[0] != PAYLOAD_MARKER && |rest| < |s|
    requires ParseOption(s) == Parsed(delta, data, rest) && Interpret(previous + delta, data) == Just(v)
    ensures ParseOptions(s, previous)
         == match ParseOptions(rest, previous + delta)
            case BadOptions => BadOptions
            case Options(list, rest') => Options([CoapOption(previous + delta, v)] + list, rest')
  {
    hide ParseOption, Interpret;
  }

  ghost predicate InFormat(opts: seq<CoapOption>)
  {
    forall o :: o in opts ==> FormatOfValue(o.value) == FormatOf(o.number)
  }

  lemma {:induction false} OptionsReadBack(opts: seq<CoapOption>, previous: nat, rest: bytes)
    requires AllProper(opts) && Printable(opts, previous) && InFormat(opts)
    requires rest == [] || rest[0] == PAYLOAD_MARKER
    ensures ParseOptions(PrintOptions(opts, previous) + rest, previous) == Options(opts, rest)
    decreases |opts|
  {
    hide ParseOption, Interpret, ValueBytes, OptionBytes, ParseOptions, FormatOf, FormatOfValue, Proper, Printable,
         PrintOptions, InFormat, AllProper;
    PrintUnfolds(opts, previous);
    if opts == [] {
      assert [] + rest == rest;
      ParseEnd(rest, previous);
    } else {
      var o := opts[0];
      FormatTail(opts);
      ReadBackOne(opts, previous, rest);
      OptionsReadBack(opts[1..], o.number, rest);
      assert [o] + opts[1..] == opts;
    }
  }

  lemma ParseEnd(rest: bytes, previous: nat)
    requires rest == [] || rest[0] == PAYLOAD_MARKER
    ensures ParseOptions(rest, previous) == Options([], rest)
  {
  }

  lemma FormatTail(opts: seq<CoapOption>)
    requires opts != [] && AllProper(opts) && InFormat(opts)
    ensures InFormat(opts[1..]) && Proper(opts[0].value) && FormatOfValue(opts[0].value) == FormatOf(opts[0].number)
  {
    hide FormatOf, FormatOfValue;
  }

  lemma ReadBackOne(opts: seq<CoapOption>, previous: nat, rest: bytes)
    requires opts != [] && AllProper(opts) && AllProper(opts[1..]) && Printable(opts, previous)
    requires FormatOfValue(opts[0].value) == FormatOf(opts[0].number) && Printable(opts[1..], opts[0].number)
    ensures ParseOptions(PrintOptions(opts, previous) + rest, previous)
         == match ParseOptions(PrintOptions(opts[1..], opts[0].number) + rest, opts[0].number)
            case BadOptions => BadOptions
            case Options(list, rest') => Options([opts[0]] + list, rest')
  {
    hide ParseOption, Interpret, ValueBytes, OptionBytes, ParseOptions, FormatOf, FormatOfValue, Printable, PrintOptions;
    PrintUnfolds(opts, previous);
    var o := opts[0];
    var delta, data := o.number - previous, ValueBytes(o.value);
    var b, tail := OptionBytes(delta, data), PrintOptions(opts[1..], o.number) + rest;
    assert PrintOptions(opts, previous) + rest == b + tail;
    ParseEncoded(delta, data, tail);
    EncodedInterprets(o.number, o.value);
    ParseStep(b + tail, previous, delta, data, tail, o.value);
  }

  lemma ProperOrdered(opts: seq<CoapOption>)
    requires AllProper(opts)
    ensures AllProper(Ordered(opts))
    ensures InFormat(opts) ==> InFormat(Ordered(opts))
  {
    hide Proper, FormatOf, FormatOfValue;
    OrderedIsStableSort(opts);
    forall o | o in Ordered(opts) ensures o in opts {
      InOfNumber(Ordered(opts), o);
      OfNumberIn(opts, o.number, o);
    }
  }

  lemma {:induction false} InOfNumber(opts: seq<CoapOption>, o: CoapOption)
    requires o in opts
    ensures o in OfNumber(opts, o.number)
    decreases |opts|
  {
    var k := |opts| - 1;
    assert opts == opts[..k] + [opts[k]];
    if opts[k] != o {
      InOfNumber(opts[..k], o);
    }
  }

  lemma {:induction false} OfNumberIn(opts: seq<CoapOption>, n: nat, o: CoapOption)
    requires o in OfNumber(opts, n)
    ensures o in opts
    decreases |opts|
  {
    if opts != [] {
      var k := |opts| - 1;
      if o in OfNumber(opts[..k], n) {
        OfNumberIn(opts[..k], n, o);
        assert o in opts[..k];
      }
    }
  }

  lemma HeaderReads(m: Message, rest: bytes)
    requires HeaderOk(m) && m.messageId < 0x1_0000 && m.token < Pow256(m.tokenLength)
    ensures var s := HeaderBytes(m) + PutBE(m.token, m.tokenLength) + rest;
            && |s| == 4 + m.tokenLength + |rest|
            && s[0] / 64 == m.version && s[0] / 16 % 4 == m.mtype && s[0] % 16 == m.tokenLength
            && s[1] / 32 == m.codeClass && s[1] % 32 == m.codeDetail
            && GetBE(s[2..4]) == m.messageId && GetBE(s[4..4 + m.tokenLength]) == m.token
            && s[4 + m.tokenLength..] == rest
  {
    var h, t, id := HeaderBytes(m), PutBE(m.token, m.tokenLength), PutBE(m.messageId, 2);
    assert Pow256(2) == 0x1_0000;
    GetPutBE(m.messageId, 2);
    GetPutBE(m.token, m.tokenLength);
    FirstByte(m.version, m.mtype, m.tokenLength);
    SecondByte(m.codeClass, m.codeDetail);
    hide PutBE, GetBE, Pow256;
    HeaderSlices(h[0], h[1], id, t, rest);
  }

  lemma HeaderSlices(a: byte, b: byte, id: bytes, t: bytes, rest: bytes)
    requires |id| == 2
    ensures var s := [a, b] + id + t + rest;
            && s[0] == a && s[1] == b && s[2..4] == id && s[4..4 + |t|] == t && s[4 + |t|..] == rest
  {
  }

  lemma FirstByte(v: nat, t: nat, k: nat)
    requires v <= 3 && t <= 3 && k <= 8
    ensures var b := 64 * v + 16 * t + k; b / 64 == v && b / 16 % 4 == t && b % 16 == k
  {
    assert (64 * v + 16 * t + k) / 16 == 4 * v + t;
  }

  lemma SecondByte(c: nat, d: nat)
    requires c <= 7 && d <= 31
    ensures var b := 32 * c + d; b / 32 == c && b % 32 == d
  {
  }

  /**
   * Decoding an encoded message gives the message back, with its options in a
   * stable sort by number.
   */
  lemma DecodeAfterEncode(m: Message)
    requires WellFormed(m)
    ensures ParseMessage(PrintMessage(m)) == Just(m.(options := Ordered(m.options)))
  {
    hide HeaderBytes, PrintOptions, ParseOptions, PutBE, GetBE, Printable, InFormat, AllProper;
    var opts, pay := Ordered(m.options), PayloadBytes(m.payload);
    var body := PrintOptions(opts, 0) + pay;
    ProperOrdered(m.options);
    OptionsReadBack(opts, 0, pay);
    HeaderReads(m, body);
    assert PrintMessage(m) == HeaderBytes(m) + PutBE(m.token, m.tokenLength) + body;
    if IsEmptyMessage(m) {
      NoOptions();
    }
  }

  lemma NoOptions()
    ensures Ordered([]) == [] && PrintOptions([], 0) == []
  {
  }

  // ----- encode after decode -----

  /** Every option in s is encoded in the shortest way. */
  predicate CanonicalOptions(s: bytes, previous: nat)
    decreases |s|
  {
    s == [] || s[0] == PAYLOAD_MARKER
    || match ParseOption(s)
       case Bad => true
       case Parsed(delta, data, rest) =>
         Canonical(previous + delta, data) && (|rest| >= |s| || CanonicalOptions(rest, previous + delta))
  }

  lemma OptionShrinks(delta: nat, data: bytes, data': bytes)
    requires delta <= EXT_MAX && |data| <= EXT_MAX && |data'| < |data|
    ensures |OptionBytes(delta, data')| < |OptionBytes(delta, data)|
  {
  }

  /** What Reencodes says about the options in s. */
  ghost predicate Reencoded(s: bytes, previous: nat, list: seq<CoapOption>, rest: bytes)
  {
    && AllProper(list) && Printable(list, previous) && (rest == [] || rest[0] == PAYLOAD_MARKER)
    && (if CanonicalOptions(s, previous) then PrintOptions(list, previous) + rest == s
        else |PrintOptions(list, previous)| + |rest| < |s|)
  }

  lemma {:induction false} OptionsReencode(s: bytes, previous: nat)
    ensures var p := ParseOptions(s, previous); p.Options? ==> Reencoded(s, previous, p.list, p.rest)
    decreases |s|
  {
    hide ParseOption, Interpret, Canonical, ValueBytes, OptionBytes, Printable, PrintOptions, Proper, Reencoded, FormatOf,
         FormatOfValue;
    if s == [] || s[0] == PAYLOAD_MARKER {
      EndReencoded(s, previous);
    } else if ParseOption(s).Parsed? {
      var p := ParseOption(s);
      var number := previous + p.delta;
      ParsedWasEncoded(s);
      if Interpret(number, p.data).Just? && |p.rest| < |s| {
        OptionsReencode(p.rest, number);
        InterpretedBytes(number, p.data);
        var tail := ParseOptions(p.rest, number);
        if tail.Options? {
          ReencodeOne(s, previous, Interpret(number, p.data).value, tail.list, tail.rest);
        }
      }
    }
  }

  lemma EndReencoded(s: bytes, previous: nat)
    requires s == [] || s[0] == PAYLOAD_MARKER
    ensures Reencoded(s, previous, [], s)
  {
    assert [] + s == s;
  }

  lemma ReencodeOne(s: bytes, previous: nat, v: Value, list: seq<CoapOption>, rest: bytes)
    requires s != [] && s[0] != PAYLOAD_MARKER && ParseOption(s).Parsed?
    requires var p := ParseOption(s);
             && p.delta <= EXT_MAX && |p.data| <= EXT_MAX && s == OptionBytes(p.delta, p.data) + p.rest && |p.rest| < |s|
             && Proper(v) && Reencoded(p.rest, previous + p.delta, list, rest)
             && if Canonical(previous + p.delta, p.data) then ValueBytes(v) == p.data else |ValueBytes(v)| < |p.data|
    ensures Reencoded(s, previous, [CoapOption(previous + ParseOption(s).delta, v)] + list, rest)
  {
    hide ParseOption, Canonical, ValueBytes, OptionBytes, Printable, PrintOptions, Proper;
    var p := ParseOption(s);
    var o := CoapOption(previous + p.delta, v);
    var all, data := [o] + list, ValueBytes(v);
    assert all[1..] == list && AllProper(all);
    PrintUnfolds(all, previous);
    if Canonical(o.number, p.data) {
      assert OptionBytes(p.delta, data) + PrintOptions(list, o.number) + rest
          == OptionBytes(p.delta, data) + (PrintOptions(list, o.number) + rest);
    } else {
      OptionShrinks(p.delta, p.data, data);
    }
  }

  lemma {:induction false} PrintableAscends(opts: seq<CoapOption>, previous: nat)
    requires AllProper(opts) && Printable(opts, previous)
    ensures Ascending(opts) && forall o :: o in opts ==> o.number >= previous
    decreases |opts|
  {
    if opts != [] {
      PrintableAscends(opts[1..], opts[0].number);
      assert opts == [opts[0]] + opts[1..];
      assert forall i :: 0 < i < |opts| ==> opts[i] in opts[1..];
    }
  }

  lemma HeaderWritesBack(s: bytes, m: Message)
    requires |s| >= 4 && s[0] / 64 == 1 && s[0] % 16 <= 8 && |s| >= 4 + s[0] % 16
    requires m.version == 1 && m.mtype == s[0] / 16 % 4 && m.tokenLength == s[0] % 16
    requires m.codeClass == s[1] / 32 && m.codeDetail == s[1] % 32
    requires m.messageId == GetBE(s[2..4]) && m.token == GetBE(s[4..4 + m.tokenLength])
    ensures m.mtype <= 3 && m.codeClass <= 7 && m.codeDetail <= 31
    ensures HeaderBytes(m) + PutBE(m.token, m.tokenLength) == s[..4 + m.tokenLength]
  {
    PutGetBE(s[2..4]);
    PutGetBE(s[4..4 + m.tokenLength]);
    hide PutBE, GetBE;
    assert s[0] == 64 * (s[0] / 64) + 16 * (s[0] / 16 % 4) + s[0] % 16;
    assert s[..4 + m.tokenLength] == [s[0], s[1]] + s[2..4] + s[4..4 + m.tokenLength];
  }

  /**
   * A message that was decoded can be encoded again, and this gives the bytes
   * it came from exactly if no uint option has a leading zero byte and no
   * If-None-Match option has a value.
   */
  lemma EncodeAfterDecode(s: bytes)
    requires ParseMessage(s).Just?
    ensures var m := ParseMessage(s).value;
            && HeaderOk(m) && AllProper(m.options) && Ordered(m.options) == m.options && CanPrint(m)
            && (PrintMessage(m) == s <==> CanonicalOptions(s[4 + m.tokenLength..], 0))
  {
    hide HeaderBytes, PrintOptions, PutBE, GetBE, Printable, Ordered, AllProper, Ascending, CanonicalOptions,
         ParseMessage, PayloadBytes;
    var m := ParseMessage(s).value;
    var at, rest := 4 + m.tokenLength, PayloadBytes(m.payload);
    PartsOf(s);
    AscendingStays(m.options);
    var body := PrintOptions(m.options, 0) + rest;
    assert s == s[..at] + s[at..];
    assert PrintMessage(m) == s[..at] + body;
    SameTail(s[..at], body, s[at..]);
  }

  lemma SameTail(a: bytes, b: bytes, c: bytes)
    ensures a + b == a + c <==> b == c
  {
    assert (a + b)[|a|..] == b && (a + c)[|a|..] == c;
  }

  /** What a successful parse says about the parts of s. */
  lemma PartsOf(s: bytes)
    requires ParseMessage(s).Just?
    ensures var m := ParseMessage(s).value; var at, rest := 4 + m.tokenLength, PayloadBytes(m.payload);
            && at <= |s| && HeaderOk(m) && AllProper(m.options) && Printable(m.options, 0) && Ascending(m.options)
            && HeaderBytes(m) + PutBE(m.token, m.tokenLength) == s[..at]
            && (PrintOptions(m.options, 0) + rest == s[at..] <==> CanonicalOptions(s[at..], 0))
  {
    hide HeaderBytes, PrintOptions, ParseOptions, PutBE, GetBE, Printable, AllProper, Ascending, CanonicalOptions;
    var m := ParseMessage(s).value;
    var at := 4 + m.tokenLength;
    var p := ParseOptions(s[at..], 0);
    OptionsReencode(s[at..], 0);
    PrintableAscends(p.list, 0);
    PayloadBack(p.rest);
    HeaderWritesBack(s, m);
    if IsEmptyMessage(m) {
      assert s[at..] == [];
      ParseEnd([], 0);
    }
  }

  lemma PayloadBack(rest: bytes)
    requires |rest| != 1 && (rest == [] || rest[0] == PAYLOAD_MARKER)
    ensures PayloadBytes(if rest == [] then [] else rest[1..]) == rest
  {
  }
}
