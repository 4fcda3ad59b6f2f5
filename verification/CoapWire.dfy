/**
 * What CoAP messages look like on the wire, taken from section 3 and appendix A of RFC 7252 and not from the parser:
 * that printing and parsing undo each other says nothing about where a field is.
 */
module CoapWire {
  import opened Bytes
  import opened CoapOption
  import opened CoapMessage

  // ----- section 3.1 -----

  /** A delta or length as section 3.1 reads it: the nibble, or what stands behind the 13 or 14. */
  ghost predicate Stands(nibble: nat, behind: bytes, x: nat)
  {
    if |behind| == 0 then nibble == x <= 12
    else if |behind| == 1 then nibble == 13 && x - 13 == GetBE(behind)
    else |behind| == 2 && nibble == 14 && x - 269 == GetBE(behind)
  }

  /** The delta stands in the upper nibble and first behind it, then the length, then the value. */
  lemma OptionStands(delta: nat, data: bytes) returns (k: nat, n: nat)
    requires delta <= EXT_MAX && |data| <= EXT_MAX
    ensures var o := OptionBytes(delta, data);
            && 1 <= k <= n <= |o| && Stands(o[0] / 16, o[1..k], delta) && Stands(o[0] % 16, o[k..n], |data|)
            && o[n..] == data
  {
    k := 1 + |Extension(delta)|;
    n := k + |Extension(|data|)|;
    var a, b := Extension(delta), Extension(|data|);
    ExtensionStands(delta);
    ExtensionStands(|data|);
    Parts(16 * Nibble(delta) + Nibble(|data|), a, b, data);
    hide Extension, Nibble, Stands;
  }

  lemma Parts(first: byte, a: bytes, b: bytes, c: bytes)
    ensures var o := [first] + a + b + c;
            o[0] == first && o[1..1 + |a|] == a && o[1 + |a|..1 + |a| + |b|] == b && o[1 + |a| + |b|..] == c
  {
  }

  lemma ExtensionStands(x: nat)
    requires x <= EXT_MAX
    ensures |Extension(x)| <= 2 && Stands(Nibble(x), Extension(x), x)
  {
    var e := Extension(x);
    if x > 268 {
      assert e[..1] == [e[0]];
      assert GetBE([e[0]]) == 256 * GetBE([e[0]][..0]) + e[0];
    } else if x > 12 {
      assert e[..0] == [];
    }
  }

  // ----- section 3 and appendix A -----

  /** A GET of one path segment without a query, confirmable, and its token. */
  function Get(id: nat, tokenLength: nat, token: nat, path: bytes): Message
  {
    Message(1, 0, 0, 1, id, tokenLength, token, [CoapOption(11, Str(path))], [])
  }

  /** The answer 2.05 in the ACK. */
  function Content(id: nat, tokenLength: nat, token: nat, payload: bytes): Message
  {
    Message(1, 2, 2, 5, id, tokenLength, token, [], payload)
  }

  /** The form of section 3: version, type and token length, code, message id, token, options, marker and payload. */
  lemma GetIs(high: byte, low: byte, tokenLength: nat, token: nat, path: bytes)
    requires |path| <= 12 && tokenLength <= 8
    ensures var m := Get(Word(high, low), tokenLength, token, path);
            && AllProper(m.options) && CanPrint(m)
            && PrintMessage(m) == [0x40 + tokenLength, 0x01, high, low] + PutBE(token, tokenLength)
                                  + [0xb0 + |path|] + path
  {
    var opts := [CoapOption(11, Str(path))];
    AscendingStays(opts);
    PathIs(opts, path);
    TwoBytes(high, low);
    hide Ordered, Printable, PrintOptions, PutBE;
    var m := Get(Word(high, low), tokenLength, token, path);
    assert HeaderBytes(m) == [0x40 + tokenLength, 0x01, high, low];
    assert PayloadBytes(m.payload) == [];
  }

  lemma PathIs(opts: seq<CoapOption>, path: bytes)
    requires |path| <= 12 && opts == [CoapOption(11, Str(path))]
    ensures AllProper(opts) && Printable(opts, 0) && PrintOptions(opts, 0) == [0xb0 + |path|] + path
  {
    PrintUnfolds(opts, 0);
    PrintUnfolds(opts[1..], 11);
    assert OptionBytes(11, path) == [0xb0 + |path|] + path;
    hide Printable, PrintOptions, OptionBytes;
  }

  lemma ContentIs(high: byte, low: byte, tokenLength: nat, token: nat, payload: bytes)
    requires payload != [] && tokenLength <= 8
    ensures var m := Content(Word(high, low), tokenLength, token, payload);
            && AllProper(m.options) && CanPrint(m)
            && PrintMessage(m) == [0x60 + tokenLength, 0x45, high, low] + PutBE(token, tokenLength) + [0xff] + payload
  {
    AscendingStays([]);
    TwoBytes(high, low);
    hide Ordered, PutBE;
    var m := Content(Word(high, low), tokenLength, token, payload);
    assert HeaderBytes(m) == [0x60 + tokenLength, 0x45, high, low];
    assert PrintOptions([], 0) == [];
  }

  lemma TwoBytes(high: byte, low: byte)
    ensures PutBE(Word(high, low), 2) == [high, low]
  {
    assert PutBE(Word(high, low), 2) == PutBE(high, 1) + [low];
    assert PutBE(high, 1) == [] + [high];
  }

  /** Figures 16 and 18: GET /temperature without a token and with one, and what answers it. */
  lemma Figures(path: bytes, degrees: bytes)
    requires path == [0x74, 0x65, 0x6d, 0x70, 0x65, 0x72, 0x61, 0x74, 0x75, 0x72, 0x65]   // "temperature"
    requires degrees == [0x32, 0x32, 0x2e, 0x33, 0x20, 0x43]                              // "22.3 C"
    ensures CanPrint(Get(0x7d34, 0, 0, path))
            && PrintMessage(Get(0x7d34, 0, 0, path)) == [0x40, 0x01, 0x7d, 0x34, 0xbb] + path
    ensures CanPrint(Get(0x7d35, 1, 0x20, path))
            && PrintMessage(Get(0x7d35, 1, 0x20, path)) == [0x41, 0x01, 0x7d, 0x35, 0x20, 0xbb] + path
    ensures CanPrint(Content(0x7d35, 1, 0x20, degrees))
            && PrintMessage(Content(0x7d35, 1, 0x20, degrees)) == [0x61, 0x45, 0x7d, 0x35, 0x20, 0xff] + degrees
  {
    hide PrintMessage, CanPrint, PutBE;
    Tokens();
    GetIs(0x7d, 0x34, 0, 0, path);
    GetIs(0x7d, 0x35, 1, 0x20, path);
    ContentIs(0x7d, 0x35, 1, 0x20, degrees);
  }

  lemma Tokens()
    ensures PutBE(0x20, 1) == [0x20] && PutBE(0, 0) == []
  {
    assert PutBE(0x20, 1) == PutBE(0, 0) + [0x20];
  }
}
