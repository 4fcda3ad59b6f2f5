/** The statements of CoAPOption.cpp and CoAPMessage.cpp, each against its function. */
module CoapCodec {
  import opened Bytes
  import opened CoapOption
  import opened CoapMessage

  // ----- options -----

  function OptionSize(o: CoapOption, previous: nat): nat
    requires Proper(o.value) && PrintableOption(o, previous)
  {
    |OptionBytes(o.number - previous, ValueBytes(o.value))|
  }

  /** CoAPOption::encode */
  method EncodeOption(o: CoapOption, previous: nat, dst: Bin) returns (ok: bool)
    requires dst.Valid() && Proper(o.value)
    modifies dst, dst.s
    ensures dst.Valid() && dst.s[..old(dst.idx)] == old(dst.s[..dst.idx])
    ensures ok == (PrintableOption(o, previous) && old(dst.idx) + OptionSize(o, previous) <= dst.max)
    ensures ok ==> dst.Done() == old(dst.Done()) + OptionBytes(o.number - previous, ValueBytes(o.value))
  {
    hide Extension, PutBE;
    if o.number < previous {
      return false;
    }
    var delta := o.number - previous;
    var len := match o.value
      case Empty => 0
      case Opaque(data) => |data|
      case Uint(u) => UintLength(u)
      case Str(data) => |data|;
    ghost var was, data := dst.Done(), ValueBytes(o.value);
    ok := EncodeHead(delta, len, dst);
    if !ok {
      return;
    }
    ghost var head := [16 * Nibble(delta) + Nibble(len)] + Extension(delta) + Extension(len);
    match o.value {
      case Empty =>
      case Opaque(bs) => ok := dst.Put(bs);
      case Str(bs) => ok := dst.Put(bs);
      case Uint(u) =>
        if len != 0 {
          ok := dst.PutVarUint(u, len);
        }
    }
    assert was + head + data == was + (head + data);
  }

  /** A delta or length from its nibble; at says how far s has been read. */
  method DecodeExtended(nibble: nat, ghost s: bytes, ghost at: nat, src: Bin) returns (ok: bool, x: nat)
    requires src.Valid() && nibble <= 15 && at <= |s| && src.Left() == s[at..]
    modifies src
    ensures src.Valid()
    ensures match ReadExtended(nibble, s, at)
            case Nothing => !ok
            case Just((y, at')) => ok && x == y && at <= at' <= |s| && src.Left() == s[at'..]
  {
    ok, x := true, nibble;
    var b: bytes;
    if nibble <= 12 {
    } else if nibble == 13 {
      ok, b := src.Get(1);
      if ok {
        x := b[0] as int + 13;
      }
    } else if nibble == 14 {
      ok, b := src.Get(2);
      if ok {
        x := 256 * (b[0] as int) + b[1] + 269;
      }
    } else {
      ok := false;
    }
  }

  /** The first byte of an option, delta and length, and the check that the value is there. */
  method DecodeHead(src: Bin) returns (ok: bool, delta: nat, len: nat)
    requires src.Valid() && src.Left() != []
    modifies src
    ensures src.Valid()
    ensures match ParseOption(old(src.Left()))
            case Bad => !ok
            case Parsed(d, data, rest) => ok && delta == d && len == |data| && src.Left() == data + rest
  {
    ghost var s := src.Left();
    var first: bytes;
    ok, first := src.Get(1);
    var n := first[0];
    delta, len := 0, 0;
    ok, delta := DecodeExtended(n / 16, s, 1, src);
    if !ok {
      return;
    }
    ghost var at := ReadExtended(n / 16, s, 1).value.1;
    ok, len := DecodeExtended(n % 16, s, at, src);
    if !ok {
      return;
    }
    ghost var at' := ReadExtended(n % 16, s, at).value.1;
    hide ReadExtended;
    ok := src.max - src.idx >= len;
    ValueInside(s, at', len);
  }

  lemma ValueInside(s: bytes, at: nat, len: nat)
    requires at <= |s|
    ensures |s[at..]| == |s| - at && (len <= |s| - at ==> s[at..] == s[at..at + len] + s[at + len..])
  {
  }

  /** The value of an option by its number. */
  method DecodeValue(number: nat, len: nat, src: Bin) returns (ok: bool, v: Value)
    requires src.Valid() && len <= |src.Left()|
    modifies src
    ensures src.Valid()
    ensures match Interpret(number, old(src.Left())[..len])
            case Nothing => !ok
            case Just(u) => ok && v == u && src.Left() == old(src.Left())[len..]
  {
    ok, v := true, Empty;
    var data: bytes, u: nat;
    match FormatOf(number) {
      case EmptyFormat =>
        src.idx := src.idx + len;
      case OpaqueFormat =>
        ok, data := src.Get(len);
        v := Opaque(data);
      case StringFormat =>
        ok, data := src.Get(len);
        v := Str(data);
      case UintFormat =>
        ok, u := src.GetVarUint(len);
        v := Uint(u);
    }
  }

  /** CoAPOption::decode */
  method DecodeOption(previous: nat, src: Bin) returns (ok: bool, o: CoapOption)
    requires src.Valid() && src.Left() != []
    modifies src
    ensures src.Valid()
    ensures var p := ParseOption(old(src.Left()));
            if p.Parsed? && Interpret(previous + p.delta, p.data).Just? then
              ok && o == CoapOption(previous + p.delta, Interpret(previous + p.delta, p.data).value) && src.Left() == p.rest
            else !ok
  {
    hide ParseOption, Interpret;
    o := CoapOption(0, Empty);
    ghost var p := ParseOption(src.Left());
    var delta, len: nat;
    ok, delta, len := DecodeHead(src);
    if !ok {
      return;
    }
    assert (p.data + p.rest)[..len] == p.data && (p.data + p.rest)[len..] == p.rest;
    var v: Value;
    ok, v := DecodeValue(previous + delta, len, src);
    o := CoapOption(previous + delta, v);
  }

  // ----- messages -----

  /** CoAPMessage::encode up to the token */
  method EncodeHeader(m: Message, dst: Bin) returns (ok: bool)
    requires dst.Valid()
    modifies dst, dst.s
    ensures dst.Valid()
    ensures ok == (HeaderOk(m) && old(dst.idx) + 4 + m.tokenLength <= dst.max)
    ensures ok ==> dst.Done() == old(dst.Done()) + (HeaderBytes(m) + PutBE(m.token, m.tokenLength))
  {
    hide PutBE;
    if m.version > 3 || m.mtype > 3 || m.tokenLength > 8 || m.codeClass > 7 || m.codeDetail > 31 {
      return false;
    }
    ghost var was, a, b, c := dst.Done(), 64 * m.version + 16 * m.mtype + m.tokenLength,
                              32 * m.codeClass + m.codeDetail, PutBE(m.messageId, 2);
    ok := dst.Put([64 * m.version + 16 * m.mtype + m.tokenLength]);
    if !ok {
      return;
    }
    ok := dst.Put([32 * m.codeClass + m.codeDetail]);
    if !ok {
      return;
    }
    ok := dst.PutVarUint(m.messageId, 2);
    if !ok {
      return;
    }
    if m.codeClass == 0 && m.codeDetail == 0 {
      if m.tokenLength != 0 || m.options != [] || m.payload != [] {
        return false;
      }
    }
    assert was + [a] + [b] + c == was + ([a, b] + c);
    if m.tokenLength != 0 {
      ok := dst.PutVarUint(m.token, m.tokenLength);
      assert was + ([a, b] + c) + PutBE(m.token, m.tokenLength) == was + (([a, b] + c) + PutBE(m.token, m.tokenLength));
    } else {
      NoToken(m.token);
      assert ([a, b] + c) + [] == [a, b] + c;
    }
  }

  lemma NoToken(token: nat)
    ensures PutBE(token, 0) == []
  {
  }

  // ----- the selection loop -----

  /** Whether all of opts can be printed after was, within max. */
  ghost predicate Goes(opts: seq<CoapOption>, start: nat, max: nat)
    requires AllProper(opts)
  {
    Printable(opts, 0) && start + |PrintOptions(opts, 0)| <= max
  }

  /** One more option after those that were printed. */
  lemma OneMore(done: seq<CoapOption>, o: CoapOption, start: nat, max: nat)
    requires AllProper(done) && Proper(o.value) && Goes(done, start, max)
    ensures AllProper(done + [o])
    ensures var previous := LastNumber(done, 0);
            Goes(done + [o], start, max) <==>
            (PrintableOption(o, previous) && start + |PrintOptions(done, 0)| + OptionSize(o, previous) <= max)
    ensures Goes(done + [o], start, max) ==>
              PrintOptions(done + [o], 0) == PrintOptions(done, 0)
                                             + OptionBytes(o.number - LastNumber(done, 0), ValueBytes(o.value))
  {
    hide OptionBytes, ValueBytes, Proper, Printable, PrintOptions;
    ProperJoin(done, [o]);
    PrintJoin(done, [o], 0);
    PrintUnfolds([o], LastNumber(done, 0));
    PrintUnfolds([], o.number);
    assert [o][1..] == [];
    if PrintableOption(o, LastNumber(done, 0)) {
      var b := OptionBytes(o.number - LastNumber(done, 0), ValueBytes(o.value));
      assert b + [] == b;
    }
  }

  /** What goes for the whole goes for every part from the front. */
  lemma PrefixGoes(done: seq<CoapOption>, rest: seq<CoapOption>, start: nat, max: nat)
    requires AllProper(done) && AllProper(rest) && AllProper(done + rest)
    ensures Goes(done + rest, start, max) ==> Goes(done, start, max)
  {
    hide Printable, PrintOptions, AllProper;
    PrintJoin(done, rest, 0);
  }

  lemma {:induction false} OfNumberPrefix(opts: seq<CoapOption>, i: nat, n: nat)
    requires i <= |opts|
    ensures OfNumber(opts[..i], n) <= OfNumber(opts, n)
    decreases |opts|
  {
    if i < |opts| {
      OfNumberPrefix(opts[..|opts| - 1], i, n);
      assert opts[..|opts| - 1][..i] == opts[..i];
    } else {
      assert opts[..i] == opts;
    }
  }

  ghost predicate Printed(now: bytes, was: bytes, opts: seq<CoapOption>)
  {
    AllProper(opts) && Printable(opts, 0) && now == was + PrintOptions(opts, 0)
  }

  /** One option is encoded behind those that were. */
  method EncodeNext(o: CoapOption, previous: nat, dst: Bin, ghost was: bytes, ghost done: seq<CoapOption>)
    returns (ok: bool)
    requires dst.Valid() && Printed(dst.Done(), was, done) && Proper(o.value) && previous == LastNumber(done, 0)
    modifies dst, dst.s
    ensures dst.Valid() && AllProper(done + [o])
    ensures ok == Goes(done + [o], |was|, dst.max)
    ensures ok ==> Printed(dst.Done(), was, done + [o])
  {
    hide OptionBytes, ValueBytes, Proper, PrintOptions, Printable, LastNumber;
    OneMore(done, o, |was|, dst.max);
    ok := EncodeOption(o, previous, dst);
    if ok {
      var b := OptionBytes(o.number - previous, ValueBytes(o.value));
      assert was + PrintOptions(done, 0) + b == was + (PrintOptions(done, 0) + b);
    }
  }

  /** Encodes the options with one number and finds the next number. */
  method EncodeNumber(opts: seq<CoapOption>, thisStep: nat, previous: nat, dst: Bin, ghost was: bytes,
                      ghost base: seq<CoapOption>)
    returns (ok: bool, nextStep: nat, last: nat)
    requires dst.Valid() && AllProper(opts) && AllProper(base + OfNumber(opts, thisStep))
    requires Printed(dst.Done(), was, base) && previous == LastNumber(base, 0)
    modifies dst, dst.s
    ensures dst.Valid()
    ensures !ok ==> !Goes(base + OfNumber(opts, thisStep), |was|, dst.max)
    ensures ok ==>
              && nextStep == NextNumber(opts, thisStep) && last == LastNumber(base + OfNumber(opts, thisStep), 0)
              && Printed(dst.Done(), was, base + OfNumber(opts, thisStep))
  {
    hide Proper, PrintOptions, Goes, LastNumber, Printed;
    nextStep, last := 0, previous;
    ghost var done := base;
    assert opts[..0] == [] && base + [] == base;
    ok := true;
    for i := 0 to |opts|
      invariant dst.Valid() && ok
      invariant done == base + OfNumber(opts[..i], thisStep)
      invariant nextStep == NextNumber(opts[..i], thisStep)
      invariant Printed(dst.Done(), was, done) && last == LastNumber(done, 0)
    {
      var o := opts[i];
      assert opts[..i + 1][..i] == opts[..i] && opts[..i + 1][i] == o;
      if o.number == thisStep {
        ok := EncodeNext(o, last, dst, was, done);
        done := done + [o];
        assert done == base + OfNumber(opts[..i + 1], thisStep);
        if !ok {
          OfNumberPrefix(opts, i + 1, thisStep);
          NotAllGo(base, OfNumber(opts[..i + 1], thisStep), OfNumber(opts, thisStep), |was|, dst.max);
          return;
        }
        last := o.number;
        LastIs(done);
      } else if o.number > thisStep {
        if nextStep == 0 || o.number < nextStep {
          nextStep := o.number;
        }
      }
    }
    assert opts[..|opts|] == opts;
  }

  lemma LastIs(done: seq<CoapOption>)
    requires done != []
    ensures LastNumber(done, 0) == done[|done| - 1].number
  {
  }

  lemma NotAllGo(base: seq<CoapOption>, part: seq<CoapOption>, whole: seq<CoapOption>, start: nat, max: nat)
    requires part <= whole && AllProper(base + part) && AllProper(base + whole) && !Goes(base + part, start, max)
    ensures !Goes(base + whole, start, max)
  {
    hide Goes, Proper;
    var rest := whole[|part|..];
    assert base + whole == (base + part) + rest;
    assert forall o :: o in rest ==> o in base + whole;
    PrefixGoes(base + part, rest, start, max);
  }

  lemma ProperParts(opts: seq<CoapOption>, done: seq<CoapOption>, n: nat)
    requires AllProper(opts) && Ordered(opts) == done + Selected(opts, n)
    ensures AllProper(done + OfNumber(opts, n)) && AllProper(Ordered(opts))
  {
    hide Proper;
    ProperOrdered(opts);
    assert forall o :: o in done + OfNumber(opts, n) ==> o in Ordered(opts);
  }

  lemma SelectedUnfolds(opts: seq<CoapOption>, n: nat)
    ensures var next := NextNumber(opts, n);
            && Selected(opts, n) == OfNumber(opts, n) + (if next == 0 then [] else Selected(opts, next))
            && (next != 0 ==> Above(opts, next) < Above(opts, n))
  {
    var next := NextNumber(opts, n);
    assert OfNumber(opts, n) + [] == OfNumber(opts, n);
    if next != 0 {
      FewerAbove(opts, n, next);
    }
  }

  /** What is still to come after the options up to a number. */
  ghost function ToCome(opts: seq<CoapOption>, more: bool, n: nat): seq<CoapOption>
  {
    if more then Selected(opts, n) else []
  }

  /** One round of the loop over the option numbers. */
  method EncodeRound(opts: seq<CoapOption>, thisStep: nat, previous: nat, dst: Bin, ghost was: bytes,
                     ghost done: seq<CoapOption>)
    returns (ok: bool, nextStep: nat, last: nat, ghost now: seq<CoapOption>)
    requires dst.Valid() && AllProper(opts) && Ordered(opts) == done + Selected(opts, thisStep)
    requires Printed(dst.Done(), was, done) && previous == LastNumber(done, 0)
    modifies dst, dst.s
    ensures dst.Valid() && AllProper(Ordered(opts))
    ensures !ok ==> !Goes(Ordered(opts), |was|, dst.max)
    ensures ok ==>
              && Printed(dst.Done(), was, now) && last == LastNumber(now, 0)
              && Ordered(opts) == now + ToCome(opts, nextStep != 0, nextStep)
              && (nextStep != 0 ==> Above(opts, nextStep) < Above(opts, thisStep))
  {
    hide Proper, LastNumber, NextNumber, Selected, OfNumber, AllProper, Printed, Above, Goes, Ordered;
    ProperParts(opts, done, thisStep);
    SelectedUnfolds(opts, thisStep);
    ghost var first, next := OfNumber(opts, thisStep), NextNumber(opts, thisStep);
    now := done + first;
    ghost var rest := if next == 0 then [] else Selected(opts, next);
    assert done + (first + rest) == now + rest;
    ok, nextStep, last := EncodeNumber(opts, thisStep, previous, dst, was, done);
    if !ok {
      NotWholeGoes(now, rest, |was|, dst.max);
    }
  }

  /** The do-while loop of CoAPMessage::encode over the option numbers. */
  method EncodeOptions(opts: seq<CoapOption>, dst: Bin) returns (ok: bool)
    requires dst.Valid() && AllProper(opts) && AllProper(Ordered(opts))
    modifies dst, dst.s
    ensures dst.Valid()
    ensures ok == Goes(Ordered(opts), old(dst.idx), dst.max)
    ensures ok ==> dst.Done() == old(dst.Done()) + PrintOptions(Ordered(opts), 0)
  {
    ghost var was := dst.Done();
    var nextStep, previous := 0, 0;
    ghost var done: seq<CoapOption> := [];
    var more := true;
    assert was + [] == was;
    assert [] + Selected(opts, 0) == Ordered(opts);
    NoLast();
    hide Proper, PrintOptions, LastNumber, Selected, AllProper, Above, Ordered;
    while more
      invariant dst.Valid() && Printed(dst.Done(), was, done) && previous == LastNumber(done, 0)
      invariant Ordered(opts) == done + ToCome(opts, more, nextStep)
      decreases more, Above(opts, nextStep)
    {
      ok, nextStep, previous, done := EncodeRound(opts, nextStep, previous, dst, was, done);
      if !ok {
        return false;
      }
      more := nextStep != 0;
    }
    assert done + [] == done;
    return true;
  }

  lemma NoLast()
    ensures LastNumber([], 0) == 0
  {
  }

  lemma NotWholeGoes(part: seq<CoapOption>, rest: seq<CoapOption>, start: nat, max: nat)
    requires AllProper(part) && AllProper(part + rest) && !Goes(part, start, max)
    ensures !Goes(part + rest, start, max)
  {
    hide Goes, Proper;
    assert forall o :: o in rest ==> o in part + rest;
    PrefixGoes(part, rest, start, max);
  }

  // ----- whole messages -----

  /** CoAPMessage::encode: fails exactly if something does not fit its field or the buffer. */
  method Encode(m: Message, dst: Bin) returns (ok: bool)
    requires dst.Valid() && AllProper(m.options) && AllProper(Ordered(m.options))
    modifies dst, dst.s
    ensures dst.Valid()
    ensures ok == (CanPrint(m) && old(dst.idx) + |PrintMessage(m)| <= dst.max)
    ensures ok ==> dst.Done() == old(dst.Done()) + PrintMessage(m)
  {
    hide HeaderBytes, PrintOptions, PutBE, Printable, Ordered, AllProper, HeaderOk;
    ghost var was, opts := dst.Done(), Ordered(m.options);
    ok := EncodeHeader(m, dst);
    if !ok {
      HeaderLength(m);
      return;
    }
    HeaderLength(m);
    ghost var head := HeaderBytes(m) + PutBE(m.token, m.tokenLength);
    ok := EncodeOptions(m.options, dst);
    if !ok {
      return;
    }
    assert was + head + PrintOptions(opts, 0) == was + (head + PrintOptions(opts, 0));
    ghost var body := head + PrintOptions(opts, 0);
    if m.payload != [] {
      ok := dst.Put([PAYLOAD_MARKER]);
      if !ok {
        return;
      }
      ok := dst.Put(m.payload);
      assert was + body + [PAYLOAD_MARKER] + m.payload == was + (body + ([PAYLOAD_MARKER] + m.payload));
    } else {
      assert body + [] == body;
    }
  }

  lemma HeaderLength(m: Message)
    ensures HeaderOk(m) ==> |HeaderBytes(m)| == 4
    ensures HeaderOk(m) ==> m.version <= 3 && m.mtype <= 3 && m.tokenLength <= 8 && m.codeClass <= 7 && m.codeDetail <= 31
  {
  }

  /** The next option, if what is left begins with one. */
  method DecodeNext(previous: nat, src: Bin) returns (ok: bool, o: CoapOption)
    requires src.Valid() && src.Left() != [] && src.Left()[0] != PAYLOAD_MARKER
    modifies src
    ensures src.Valid()
    ensures var r := ParseOptions(old(src.Left()), previous);
            if ok then r == Prepend([o], ParseOptions(src.Left(), o.number)) && |src.Left()| < |old(src.Left())|
            else r == BadOptions
  {
    hide ParseOptions, ParseOption, Interpret, Prepend;
    ParseUnfolds(src.Left(), previous);
    ok, o := DecodeOption(previous, src);
  }

  /** The loop of CoAPMessage::decode over the options. */
  method DecodeOptions(src: Bin) returns (ok: bool, options: seq<CoapOption>)
    requires src.Valid()
    modifies src
    ensures src.Valid()
    ensures match ParseOptions(old(src.Left()), 0)
            case BadOptions => !ok
            case Options(list, rest) => ok && options == list && src.Left() == rest
  {
    ghost var s := src.Left();
    var previous := 0;
    options, ok := [], true;
    NothingYet(s);
    hide ParseOptions;
    while src.idx < src.max && src.s[src.idx] != PAYLOAD_MARKER
      invariant src.Valid() && ok
      invariant ParseOptions(s, 0) == Prepend(options, ParseOptions(src.Left(), previous))
      decreases |src.Left()|
    {
      assert src.Left()[0] == src.s[src.idx];
      var o: CoapOption;
      ok, o := DecodeNext(previous, src);
      if !ok {
        return;
      }
      PrependOne(options, o, ParseOptions(src.Left(), o.number));
      options := options + [o];
      previous := o.number;
    }
    assert src.Left() == [] || src.Left()[0] == src.s[src.idx];
    ParseStops(src.Left(), previous);
    assert options + [] == options;
  }

  function Prepend(front: seq<CoapOption>, r: Options): Options
  {
    match r
    case BadOptions => BadOptions
    case Options(list, rest) => Options(front + list, rest)
  }

  lemma NothingYet(s: bytes)
    ensures ParseOptions(s, 0) == Prepend([], ParseOptions(s, 0))
  {
    match ParseOptions(s, 0)
    case BadOptions =>
    case Options(list, rest) => assert [] + list == list;
  }

  lemma PrependOne(front: seq<CoapOption>, o: CoapOption, r: Options)
    ensures Prepend(front, Prepend([o], r)) == Prepend(front + [o], r)
  {
    match r
    case BadOptions =>
    case Options(list, rest) => assert front + ([o] + list) == front + [o] + list;
  }

  lemma ParseUnfolds(s: bytes, previous: nat)
    requires s != [] && s[0] != PAYLOAD_MARKER
    ensures var p := ParseOption(s);
            if p.Parsed? && Interpret(previous + p.delta, p.data).Just? then
              var number := previous + p.delta;
              && |p.rest| < |s|
              && ParseOptions(s, previous)
                 == Prepend([CoapOption(number, Interpret(number, p.data).value)], ParseOptions(p.rest, number))
            else ParseOptions(s, previous) == BadOptions
  {
    if ParseOption(s).Parsed? {
      ParsedWasEncoded(s);
    }
    hide ParseOption, Interpret;
  }

  lemma ParseStops(s: bytes, previous: nat)
    requires s == [] || s[0] == PAYLOAD_MARKER
    ensures ParseOptions(s, previous) == Options([], s)
  {
  }

  predicate HeaderParses(s: bytes)
  {
    && |s| >= 4 && s[0] / 64 == 1 && s[0] % 16 <= 8
    && (s[1] == 0 ==> s[0] % 16 == 0 && |s| == 4)
    && |s| >= 4 + s[0] % 16
  }

  function HeaderPart(s: bytes): Message
    requires HeaderParses(s)
  {
    Message(1, s[0] / 16 % 4, s[1] / 32, s[1] % 32, GetBE(s[2..4]), s[0] % 16, GetBE(s[4..4 + s[0] % 16]), [], [])
  }

  lemma HeaderThenOptions(s: bytes)
    ensures ParseMessage(s)
         == if !HeaderParses(s) then Nothing
            else
              match ParseOptions(s[4 + s[0] % 16..], 0)
              case BadOptions => Nothing
              case Options(list, rest) =>
                if |rest| == 1 then Nothing
                else Just(HeaderPart(s).(options := list, payload := if rest == [] then [] else rest[1..]))
  {
    hide ParseOptions, GetBE;
  }

  /** The four bytes every message has. */
  method DecodeFixed(src: Bin) returns (ok: bool, m: Message)
    requires src.Valid()
    modifies src
    ensures src.Valid()
    ensures var s := old(src.Left());
            ok == (|s| >= 4 && s[0] / 64 == 1 && s[0] % 16 <= 8)
    ensures var s := old(src.Left());
            ok ==> m == Message(1, s[0] / 16 % 4, s[1] / 32, s[1] % 32, GetBE(s[2..4]), s[0] % 16, 0, [], [])
                   && src.Left() == s[4..]
  {
    hide GetBE;
    ghost var s := src.Left();
    m := Message(1, 0, 0, 0, 0, 0, 0, [], []);
    var b, c: bytes;
    ok, b := src.Get(1);
    if !ok || b[0] / 64 != 1 || b[0] % 16 > 8 {
      return false, m;
    }
    ok, c := src.Get(1);
    if !ok {
      return;
    }
    m := m.(mtype := b[0] / 16 % 4, tokenLength := b[0] % 16, codeClass := c[0] / 32, codeDetail := c[0] % 32);
    ok, b := src.Get(2);
    if !ok {
      return;
    }
    assert b == s[2..4] && src.Left() == s[4..];
    var messageId := GetNumber(b);
    m := m.(messageId := messageId);
  }

  lemma TokenSlices(s: bytes, tkl: nat)
    requires 4 + tkl <= |s|
    ensures s[4..][..tkl] == s[4..4 + tkl] && s[4..][tkl..] == s[4 + tkl..]
  {
  }

  /** CoAPMessage::decode up to the token */
  method DecodeHeader(src: Bin) returns (ok: bool, m: Message)
    requires src.Valid()
    modifies src
    ensures src.Valid() && ok == HeaderParses(old(src.Left()))
    ensures ok ==> m == HeaderPart(old(src.Left())) && src.Left() == old(src.Left())[4 + m.tokenLength..]
  {
    hide GetBE;
    ghost var s := src.Left();
    ok, m := DecodeFixed(src);
    if !ok {
      return;
    }
    if m.codeClass == 0 && m.codeDetail == 0 && (m.tokenLength != 0 || src.idx < src.max) {
      return false, m;
    }
    var token := 0;
    ok, token := src.GetVarUint(m.tokenLength);
    if !ok {
      return;
    }
    TokenSlices(s, m.tokenLength);
    m := m.(token := token);
  }

  /** The payload marker and what is behind it, which must not be nothing. */
  method DecodePayload(src: Bin) returns (ok: bool, payload: bytes)
    requires src.Valid() && (src.Left() == [] || src.Left()[0] == PAYLOAD_MARKER)
    modifies src
    ensures src.Valid() && ok == (|old(src.Left())| != 1)
    ensures ok ==> src.Left() == [] && payload == if old(src.Left()) == [] then [] else old(src.Left())[1..]
  {
    ok, payload := true, [];
    ghost var rest := src.Left();
    if src.idx < src.max && src.s[src.idx] == PAYLOAD_MARKER {
      src.idx := src.idx + 1;
      if src.idx >= src.max {
        return false, [];
      }
      payload := src.s[src.idx..src.max];
      assert payload == rest[1..];
      src.idx := src.max;
    }
  }

  /** CoAPMessage::decode */
  method Decode(src: Bin) returns (ok: bool, m: Message)
    requires src.Valid()
    modifies src
    ensures src.Valid()
    ensures match ParseMessage(old(src.Left()))
            case Nothing => !ok
            case Just(parsed) => ok && m == parsed && src.Left() == []
  {
    HeaderThenOptions(src.Left());
    hide ParseMessage, ParseOptions, HeaderParses, HeaderPart;
    ok, m := DecodeHeader(src);
    if !ok {
      return;
    }
    var options, payload := [], [];
    ParsedRest(src.Left(), 0);
    ok, options := DecodeOptions(src);
    if !ok {
      return;
    }
    ok, payload := DecodePayload(src);
    m := m.(options := options, payload := payload);
  }

  method GetNumber(b: bytes) returns (v: nat)
    requires |b| == 2
    ensures v == GetBE(b)
  {
    assert GetBE(b[..1]) == 256 * GetBE(b[..1][..0]) + b[0];
    v := 256 * (b[0] as int) + b[1];
  }

  lemma {:induction false} ParsedRest(s: bytes, previous: nat)
    ensures var p := ParseOptions(s, previous); p.Options? ==> p.rest == [] || p.rest[0] == PAYLOAD_MARKER
    decreases |s|
  {
    OptionsReencode(s, previous);
  }

  const TEST_BUFFER := 256

  /** CoAPMessage::testCodec passes exactly on messages of at most 256 bytes whose options are canonical. */
  method TestCodec(buffer: array<byte>) returns (passed: bool)
    ensures var s := buffer[..];
            passed == match ParseMessage(s)
                      case Nothing => false
                      case Just(m) => |s| <= TEST_BUFFER && CanonicalOptions(s[4 + m.tokenLength..], 0)
  {
    var src := new Bin(buffer, buffer.Length);
    ghost var s := buffer[..];
    assert src.Left() == s;
    var ok, m := Decode(src);
    if !ok {
      return false;
    }
    EncodeAfterDecode(s);
    hide ParseMessage, PrintMessage, CanonicalOptions, HeaderOk, Printable, AllProper, Ordered, OfNumber;
    var buf := new byte[TEST_BUFFER];
    var dst := new Bin(buf, TEST_BUFFER);
    ok := Encode(m, dst);
    if !ok {
      ShorterPrint(s);
      return false;
    }
    passed := dst.idx == buffer.Length && dst.s[..dst.idx] == buffer[..];
  }

  /** A canonical message needs as much room as it came in. */
  lemma ShorterPrint(s: bytes)
    requires ParseMessage(s).Just?
    ensures var m := ParseMessage(s).value;
            && AllProper(m.options) && CanPrint(m)
            && (CanonicalOptions(s[4 + m.tokenLength..], 0) ==> |PrintMessage(m)| == |s|)
  {
    EncodeAfterDecode(s);
    hide ParseMessage, PrintMessage, CanonicalOptions, HeaderOk, Printable, AllProper, Ordered;
  }
}
