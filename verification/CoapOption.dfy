/** CoAP options: their wire form and their interpretation (CoAPOption.cpp; section 3.1 of RFC 7252). */
module CoapOption {
  import opened Bytes

  const EXT_MAX := 65804            // 269 + 65535

  // ----- values -----

  datatype Value = Empty | Opaque(data: bytes) | Uint(value: nat) | Str(data: bytes)

  datatype Format = EmptyFormat | OpaqueFormat | UintFormat | StringFormat

  datatype CoapOption = CoapOption(number: nat, value: Value)

  datatype Maybe<+T> = Nothing | Just(value: T)

  /** The decoder's table of option numbers. */
  function FormatOf(number: nat): Format
  {
    if number == 5 then EmptyFormat
    else if number in {6, 7, 12, 14, 17, 23, 27, 28, 60, 258, 50000} then UintFormat
    else if number in {3, 8, 11, 15, 20, 35, 39} then StringFormat
    else OpaqueFormat
  }

  /** The formats of section 5.10 of RFC 7252. */
  lemma RegisteredFormats()
    ensures FormatOf(5) == EmptyFormat                                             // If-None-Match
    ensures forall n :: n in {1, 4} ==> FormatOf(n) == OpaqueFormat                // If-Match, ETag
    ensures forall n :: n in {7, 12, 14, 17, 60} ==> FormatOf(n) == UintFormat     // Uri-Port ... Size1
    ensures forall n :: n in {3, 8, 11, 15, 20, 35, 39} ==> FormatOf(n) == StringFormat
  {
  }

  function FormatOfValue(v: Value): Format
  {
    match v
    case Empty => EmptyFormat
    case Opaque(_) => OpaqueFormat
    case Uint(_) => UintFormat
    case Str(_) => StringFormat
  }

  /** The length chosen for a uint64_t. */
  function UintLength(v: nat): nat
    requires v < Pow256(8)
  {
    if v == 0 then 0
    else if v <= 0xFF then 1
    else if v <= 0xFFFF then 2
    else if v <= 0xFFFFFF then 3
    else if v <= 0xFFFFFFFF then 4
    else if v <= 0xFFFFFFFFFF then 5
    else if v <= 0xFFFFFFFFFFFF then 6
    else if v <= 0xFFFFFFFFFFFFFF then 7
    else 8
  }

  predicate Proper(v: Value) { v.Uint? ==> v.value < Pow256(8) }

  function ValueBytes(v: Value): bytes
    requires Proper(v)
  {
    match v
    case Empty => []
    case Opaque(data) => data
    case Str(data) => data
    case Uint(u) => PutBE(u, UintLength(u))
  }

  /** What the decoder makes of the bytes of an option with this number. */
  function Interpret(number: nat, data: bytes): Maybe<Value>
  {
    match FormatOf(number)
    case EmptyFormat => Just(Empty)
    case OpaqueFormat => Just(Opaque(data))
    case StringFormat => Just(Str(data))
    case UintFormat => if |data| > 8 then Nothing else Just(Uint(GetBE(data)))
  }

  /** No leading zero byte in a uint, nothing in an empty option. */
  predicate Canonical(number: nat, data: bytes)
  {
    match FormatOf(number)
    case EmptyFormat => data == []
    case UintFormat => data == [] || data[0] != 0
    case _ => true
  }

  // ----- numbers of minimal length -----

  lemma Powers()
    ensures Pow256(0) == 1 && Pow256(1) == 0x100 && Pow256(2) == 0x1_0000 && Pow256(3) == 0x100_0000
    ensures Pow256(4) == 0x1_0000_0000 && Pow256(5) == 0x100_0000_0000 && Pow256(6) == 0x1_0000_0000_0000
    ensures Pow256(7) == 0x100_0000_0000_0000 && Pow256(8) == 0x1_0000_0000_0000_0000
  {
    assert Pow256(2) == 256 * Pow256(1);
    assert Pow256(4) == 256 * Pow256(3);
    assert Pow256(6) == 256 * Pow256(5);
    assert Pow256(8) == 256 * Pow256(7);
  }

  /** The chosen length is the least that holds the value. */
  lemma UintLengthLeast(v: nat, k: nat)
    requires v < Pow256(8) && k <= 8
    ensures v < Pow256(k) <==> UintLength(v) <= k
  {
    Powers();
  }

  lemma {:induction false} LeadingByte(s: bytes)
    requires s != []
    ensures s[0] == 0 <==> GetBE(s) < Pow256(|s| - 1)
    decreases |s|
  {
    var n := |s| - 1;
    if n > 0 {
      LeadingByte(s[..n]);
      assert s[..n][0] == s[0];
    }
  }

  lemma {:induction false} Pow256Grows(a: nat, b: nat)
    requires a <= b
    ensures Pow256(a) <= Pow256(b)
    decreases b
  {
    if a < b {
      Pow256Grows(a, b - 1);
    }
  }

  /** Encoding what was decoded gives the same bytes back exactly if they were canonical, and fewer otherwise. */
  lemma InterpretedBytes(number: nat, data: bytes)
    requires Interpret(number, data).Just?
    ensures var v := Interpret(number, data).value;
            && Proper(v) && FormatOfValue(v) == FormatOf(number)
            && if Canonical(number, data) then ValueBytes(v) == data else |ValueBytes(v)| < |data|
  {
    if FormatOf(number).UintFormat? {
      var u, n := GetBE(data), |data|;
      PutGetBE(data);
      Pow256Grows(n, 8);
      UintLengthLeast(u, n);
      if data != [] {
        LeadingByte(data);
        UintLengthLeast(u, n - 1);
      }
    }
  }

  /** Decoding an encoded value of the right format gives the value back. */
  lemma EncodedInterprets(number: nat, v: Value)
    requires Proper(v) && FormatOfValue(v) == FormatOf(number)
    ensures Interpret(number, ValueBytes(v)) == Just(v) && Canonical(number, ValueBytes(v))
  {
    if v.Uint? {
      var n := UintLength(v.value);
      UintLengthLeast(v.value, n);
      GetPutBE(v.value, n);
      if n > 0 {
        UintLengthLeast(v.value, n - 1);
        LeadingByte(PutBE(v.value, n));
      }
    }
  }

  // ----- the wire form -----

  function Nibble(x: nat): (n: nat)
    requires x <= EXT_MAX
    ensures n <= 14
  {
    if x <= 12 then x else if x <= 268 then 13 else 14
  }

  function Extension(x: nat): bytes
    requires x <= EXT_MAX
  {
    if x <= 12 then [] else if x <= 268 then [x - 13] else [(x - 269) / 256, (x - 269) % 256]
  }

  function OptionBytes(delta: nat, data: bytes): bytes
    requires delta <= EXT_MAX && |data| <= EXT_MAX
  {
    [16 * Nibble(delta) + Nibble(|data|)] + Extension(delta) + Extension(|data|) + data
  }

  /** A delta or a length: the nibble and what extends it at position at. */
  function ReadExtended(nibble: nat, s: bytes, at: nat): Maybe<(nat, nat)>
  {
    if nibble <= 12 then Just((nibble, at))
    else if nibble == 13 then if at < |s| then Just((s[at] as int + 13, at + 1)) else Nothing
    else if nibble == 14 then if at + 1 < |s| then Just((256 * (s[at] as int) + s[at + 1] + 269, at + 2)) else Nothing
    else Nothing
  }

  datatype Parsed = Bad | Parsed(delta: nat, data: bytes, rest: bytes)

  /** One option at the start of s, uninterpreted. */
  function ParseOption(s: bytes): Parsed
  {
    if s == [] then Bad
    else
      match ReadExtended(s[0] / 16, s, 1)
      case Nothing => Bad
      case Just((delta, at)) =>
        match ReadExtended(s[0] % 16, s, at)
        case Nothing => Bad
        case Just((len, at')) =>
          if at' + len <= |s| then Parsed(delta, s[at'..at' + len], s[at' + len..]) else Bad
  }

  lemma ExtendedReads(x: nat, before: bytes, after: bytes)
    requires x <= EXT_MAX
    ensures var s := before + Extension(x) + after;
            ReadExtended(Nibble(x), s, |before|) == Just((x, |before| + |Extension(x)|))
  {
    var s := before + Extension(x) + after;
    if x > 12 {
      assert s[|before|] == Extension(x)[0];
      if x > 268 {
        assert s[|before| + 1] == Extension(x)[1];
      }
    }
  }

  lemma ExtendedUnique(n: nat, s: bytes, at: nat)
    requires at <= |s| && ReadExtended(n, s, at).Just?
    ensures var (x, at') := ReadExtended(n, s, at).value;
            && x <= EXT_MAX && Nibble(x) == n && at <= at' <= |s| && s[at..at'] == Extension(x)
  {
  }

  lemma ParseIs(s: bytes, delta: nat, at: nat, len: nat, at': nat)
    requires s != [] && ReadExtended(s[0] / 16, s, 1) == Just((delta, at))
    requires ReadExtended(s[0] % 16, s, at) == Just((len, at')) && at' + len <= |s|
    ensures ParseOption(s) == Parsed(delta, s[at'..at' + len], s[at' + len..])
  {
    hide ReadExtended;
  }

  lemma FirstNibbles(a: nat, b: nat)
    requires b < 16
    ensures (16 * a + b) / 16 == a && (16 * a + b) % 16 == b
  {
  }

  /** The forms for delta and length are disjoint: an encoded option parses back, whatever follows it. */
  lemma ParseEncoded(delta: nat, data: bytes, rest: bytes)
    requires delta <= EXT_MAX && |data| <= EXT_MAX
    ensures ParseOption(OptionBytes(delta, data) + rest) == Parsed(delta, data, rest)
    ensures OptionBytes(delta, data) != [] && OptionBytes(delta, data)[0] != 0xff
  {
    hide Extension, ReadExtended, ParseOption, Nibble;
    var a, b := Nibble(delta), Nibble(|data|);
    var f, d, l := [16 * a + b], Extension(delta), Extension(|data|);
    var s := OptionBytes(delta, data) + rest;
    assert s == f + d + (l + data + rest) && s == (f + d) + l + (data + rest);
    ExtendedReads(delta, f, l + data + rest);
    ExtendedReads(|data|, f + d, data + rest);
    AfterHead((f + d) + l, data, rest);
    FirstNibbles(a, b);
    hide OptionBytes;
    ParseIs(s, delta, |f + d|, |data|, |f + d + l|);
  }

  lemma AfterHead(head: bytes, data: bytes, rest: bytes)
    ensures var s := head + (data + rest);
            s[|head|..|head| + |data|] == data && s[|head| + |data|..] == rest
  {
    var s := head + (data + rest);
    assert s[|head|..] == data + rest;
  }

  /** And each is unique: what parses is the encoding of what was found. */
  lemma ParsedWasEncoded(s: bytes)
    requires ParseOption(s).Parsed?
    ensures var p := ParseOption(s);
            p.delta <= EXT_MAX && |p.data| <= EXT_MAX && s == OptionBytes(p.delta, p.data) + p.rest
  {
    var (delta, at) := ReadExtended(s[0] / 16, s, 1).value;
    ExtendedUnique(s[0] / 16, s, 1);
    var (len, at') := ReadExtended(s[0] % 16, s, at).value;
    ExtendedUnique(s[0] % 16, s, at);
    hide Extension, ReadExtended, Nibble;
    SliceFour(s, 1, at, at', at' + len);
  }

  lemma SliceFour(s: bytes, a: nat, b: nat, c: nat, d: nat)
    requires a <= b <= c <= d <= |s|
    ensures s == s[..a] + s[a..b] + s[b..c] + s[c..d] + s[d..]
  {
  }

  // ----- digits -----

  lemma NoDigits(v: nat)
    ensures PutBE(v, 0) == []
  {
  }

  lemma LastDigit(v: nat, n: nat)
    requires n > 0
    ensures PutBE(v, n) == PutBE(v / 256, n - 1) + [v % 256]
  {
  }

  /** v >> 8 * i */
  function Shifted(v: nat, i: nat): nat { if i == 0 then v else Shifted(v / 256, i - 1) }

  lemma {:induction false} ShiftMore(v: nat, i: nat)
    ensures Shifted(v, i + 1) == Shifted(v, i) / 256
    decreases i
  {
    if i > 0 {
      ShiftMore(v / 256, i - 1);
    }
  }

  lemma NextDigit(v: nat, width: nat, i: nat)
    requires i < width
    ensures PutBE(Shifted(v, i), width - i) == PutBE(Shifted(v, i + 1), width - (i + 1)) + [Shifted(v, i) % 256]
  {
    hide PutBE, Shifted;
    LastDigit(Shifted(v, i), width - i);
    ShiftMore(v, i);
  }

  lemma OneWhole()
    ensures Pow256(0) == 1
  {
  }

  lemma NoValue()
    ensures GetBE([]) == 0
  {
  }

  lemma NextValue(s: bytes, b: byte, i: nat)
    ensures GetBE(s + [b]) * Pow256(i) == GetBE(s) * Pow256(i + 1) + b * Pow256(i)
  {
    assert (s + [b])[..|s|] == s;
    var g, p := GetBE(s), Pow256(i);
    assert (256 * g + b) * p == g * (256 * p) + b * p;
  }

  // ----- bin_t -----

  /** A buffer with a position; every access checks what is left and otherwise reports bad_length. */
  class Bin {
    const s: array<byte>
    const max: nat
    var idx: nat

    ghost predicate Valid()
      reads this
    {
      idx <= max <= s.Length
    }

    constructor (s: array<byte>, max: nat)
      requires max <= s.Length
      ensures this.s == s && this.max == max && idx == 0 && Valid()
    {
      this.s, this.max, this.idx := s, max, 0;
    }

    /** What has been written, or read, so far. */
    function Done(): bytes
      requires Valid()
      reads this, s
    {
      s[..idx]
    }

    /** What is left to read. */
    function Left(): bytes
      requires Valid()
      reads this, s
    {
      s[idx..max]
    }

    /** bin_t_encode_mem */
    method Put(data: bytes) returns (ok: bool)
      requires Valid()
      modifies this, s
      ensures Valid() && ok == (old(idx) + |data| <= max)
      ensures if ok then Done() == old(Done()) + data else Done() == old(Done())
      ensures s[..old(idx)] == old(s[..idx])
    {
      if max - idx < |data| {
        return false;
      }
      Copy(s, idx, data);
      idx := idx + |data|;
      return true;
    }

    /** bin_t_encode_varuint */
    method PutVarUint(v: nat, width: nat) returns (ok: bool)
      requires Valid() && width <= 8
      modifies this, s
      ensures Valid() && ok == (old(idx) + width <= max)
      ensures ok ==> Done() == old(Done()) + PutBE(v, width)
      ensures s[..old(idx)] == old(s[..idx])
    {
      if max - idx < width {
        return false;
      }
      hide PutBE;
      ghost var was, at := Done(), idx;
      NoDigits(Shifted(v, width));
      for i := width downto 0
        invariant Valid() && idx == at + (width - i) && at + width <= max
        invariant s[..at] == was
        invariant s[at..idx] == PutBE(Shifted(v, i), width - i)
      {
        NextDigit(v, width, i);
        ghost var before := s[at..idx];
        s[idx] := Shifted(v, i) % 256;
        assert s[at..idx] == before;
        idx := idx + 1;
        assert s[at..idx] == before + [Shifted(v, i) % 256];
      }
      assert Shifted(v, 0) == v;
      assert Done() == s[..at] + s[at..idx];
      return true;
    }

    /** bin_t_decode_varuint; more than eight bytes are refused. */
    method GetVarUint(width: nat) returns (ok: bool, v: nat)
      requires Valid()
      modifies this
      ensures Valid() && ok == (width <= 8 && width <= |old(Left())|)
      ensures if ok then v == GetBE(old(Left())[..width]) && Left() == old(Left())[width..] else idx == old(idx)
    {
      if width > 8 || max - idx < width {
        return false, 0;
      }
      hide GetBE, Pow256;
      ghost var at, left := idx, Left();
      v := 0;
      NoValue();
      for i := width downto 0
        invariant Valid() && idx == at + (width - i)
        invariant v == GetBE(left[..width - i]) * Pow256(i)
      {
        NextValue(left[..width - i - 1], s[idx], i);
        assert left[..width - i - 1] + [s[idx]] == left[..width - i];
        v := v + s[idx] * Pow256(i);
        idx := idx + 1;
      }
      OneWhole();
      return true, v;
    }

    /** A write through a pointer to an earlier byte. */
    method Patch(at: nat, b: byte)
      requires Valid() && at < idx
      modifies s
      ensures Done() == old(Done())[at := b]
      ensures s[..at] == old(s[..at])
    {
      s[at] := b;
    }

    /** bin_t_decode_mem and the fixed-size reads */
    method Get(n: nat) returns (ok: bool, data: bytes)
      requires Valid()
      modifies this
      ensures Valid() && ok == (n <= |old(Left())|)
      ensures if ok then data == old(Left())[..n] && Left() == old(Left())[n..] else idx == old(idx)
    {
      if max - idx < n {
        return false, [];
      }
      data := s[idx..idx + n];
      idx := idx + n;
      return true, data;
    }
  }

  // ----- encode and decode -----

  lemma OrEven(x: nat, l: nat)
    ensures OrNat(2 * x, l) == 2 * OrNat(x, l / 2) + l % 2
  {
  }

  lemma DoubleTimes(p: nat, d: nat)
    ensures 2 * p * d == 2 * (p * d)
  {
  }

  lemma {:induction false} OrLow(d: nat, l: nat, n: nat)
    requires l < Pow2(n)
    ensures OrNat(Pow2(n) * d, l) == Pow2(n) * d + l
    decreases n
  {
    hide OrNat;
    if n == 0 {
      OrZero(d);
    } else {
      var p := Pow2(n - 1);
      OrLow(d, l / 2, n - 1);
      DoubleTimes(p, d);
      OrEven(p * d, l);
    }
  }

  lemma OrNibbles(d: nat, l: nat)
    requires d < 16 && l < 16
    ensures Or(16 * d, l) == 16 * d + l
  {
    assert Pow2(4) == 16;
    OrLow(d, l, 4);
  }

  lemma {:induction false} OrZero(d: nat)
    ensures OrNat(d, 0) == d
    decreases d
  {
    if d != 0 {
      OrZero(d / 2);
    }
  }

  /** What extends the nibble of a delta or length, if it is not the last form too big. */
  method PutExtension(x: nat, dst: Bin) returns (ok: bool)
    requires dst.Valid() && x <= EXT_MAX
    modifies dst, dst.s
    ensures dst.Valid() && ok == (old(dst.idx) + |Extension(x)| <= dst.max)
    ensures ok ==> dst.Done() == old(dst.Done()) + Extension(x)
    ensures dst.s[..old(dst.idx)] == old(dst.s[..dst.idx])
  {
    ok := true;
    if x <= 12 {
    } else if x <= 13 + 255 {
      ok := dst.Put([x - 13]);
    } else {
      ok := dst.Put([(x - 269) / 256, (x - 269) % 256]);
    }
  }

  lemma Patched(was: bytes, b: byte, b': byte, rest: bytes)
    ensures (was + [b] + rest)[|was| := b'] == was + [b'] + rest
  {
  }

  /** The option's first byte and what extends it. */
  method EncodeHead(delta: nat, len: nat, dst: Bin) returns (ok: bool)
    requires dst.Valid()
    modifies dst, dst.s
    ensures dst.Valid() && dst.s[..old(dst.idx)] == old(dst.s[..dst.idx])
    ensures ok == (delta <= EXT_MAX && len <= EXT_MAX
                   && old(dst.idx) + 1 + |Extension(delta)| + |Extension(len)| <= dst.max)
    ensures ok ==> dst.Done() == old(dst.Done()) + ([16 * Nibble(delta) + Nibble(len)] + Extension(delta) + Extension(len))
  {
    hide Or, Extension;
    ghost var was := dst.Done();
    var first := dst.idx;
    ok := dst.Put([0]);
    if !ok || delta > EXT_MAX {
      return false;
    }
    dst.Patch(first, 16 * (if delta <= 12 then delta else if delta <= 13 + 255 then 13 else 14));
    ghost var b := 16 * Nibble(delta);
    assert dst.Done() == was + [b];
    ok := PutExtension(delta, dst);
    if !ok || len > EXT_MAX {
      return false;
    }
    assert dst.Done() == was + [b] + Extension(delta);
    assert dst.s[first] == dst.Done()[first] == b;
    OrNibbles(Nibble(delta), Nibble(len));
    dst.Patch(first, Or(dst.s[first], if len <= 12 then len else if len <= 13 + 255 then 13 else 14));
    Patched(was, b, b + Nibble(len), Extension(delta));
    ok := PutExtension(len, dst);
    assert was + [b + Nibble(len)] + Extension(delta) + Extension(len)
        == was + ([b + Nibble(len)] + Extension(delta) + Extension(len));
  }
}
