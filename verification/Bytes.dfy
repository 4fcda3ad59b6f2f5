/** Byte strings, exclusive-or and big-endian numbers (numeric.h, global.h). */
module Bytes {

  type byte = x: int | 0 <= x < 256

  type bytes = seq<byte>

  // ----- exclusive or -----

  function XorNat(a: nat, b: nat): nat
    decreases a
  {
    if a == 0 then b
    else if b == 0 then a
    else 2 * XorNat(a / 2, b / 2) + (if a % 2 == b % 2 then 0 else 1)
  }

  function Pow2(n: nat): (r: nat)
    ensures r > 0
  {
    if n == 0 then 1 else 2 * Pow2(n - 1)
  }

  lemma {:induction false} XorBound(a: nat, b: nat, n: nat)
    requires a < Pow2(n) && b < Pow2(n)
    ensures XorNat(a, b) < Pow2(n)
    decreases n
  {
    if a != 0 && b != 0 {
      XorBound(a / 2, b / 2, n - 1);
    }
  }

  function Xor(a: byte, b: byte): byte
  {
    assert Pow2(8) == 256;
    XorBound(a, b, 8);
    XorNat(a, b)
  }

  lemma {:induction false} XorNatCommutes(a: nat, b: nat)
    ensures XorNat(a, b) == XorNat(b, a)
    decreases a
  {
    if a != 0 && b != 0 {
      XorNatCommutes(a / 2, b / 2);
    }
  }

  lemma {:induction false} XorNatParts(a: nat, b: nat)
    ensures XorNat(a, b) / 2 == XorNat(a / 2, b / 2)
    ensures XorNat(a, b) % 2 == (if a % 2 == b % 2 then 0 else 1)
  {
    XorNatCommutes(a, b);
    XorNatCommutes(a / 2, b / 2);
  }

  lemma {:induction false} XorNatAssociates(a: nat, b: nat, c: nat)
    ensures XorNat(XorNat(a, b), c) == XorNat(a, XorNat(b, c))
    decreases a + b + c
  {
    var l, r := XorNat(XorNat(a, b), c), XorNat(a, XorNat(b, c));
    if a + b + c != 0 {
      if a == 0 {
      } else {
        XorNatAssociates(a / 2, b / 2, c / 2);
        XorNatParts(a, b); XorNatParts(b, c);
        XorNatParts(XorNat(a, b), c); XorNatParts(a, XorNat(b, c));
        assert l / 2 == r / 2 && l % 2 == r % 2;
      }
    }
  }

  lemma {:induction false} XorNatSelf(a: nat)
    ensures XorNat(a, a) == 0
    decreases a
  {
    if a != 0 {
      XorNatSelf(a / 2);
    }
  }

  /** XORing the same byte twice gives the original back. */
  lemma XorCancels(a: byte, b: byte)
    ensures Xor(Xor(a, b), b) == a
  {
    XorNatAssociates(a, b, b);
    XorNatSelf(b);
    XorNatCommutes(a, 0);
  }

  function OrNat(a: nat, b: nat): nat
    decreases a
  {
    if a == 0 then b
    else 2 * OrNat(a / 2, b / 2) + (if a % 2 == 1 || b % 2 == 1 then 1 else 0)
  }

  lemma {:induction false} OrBound(a: nat, b: nat, n: nat)
    requires a < Pow2(n) && b < Pow2(n)
    ensures OrNat(a, b) < Pow2(n)
    decreases n
  {
    if a != 0 {
      OrBound(a / 2, b / 2, n - 1);
    }
  }

  function Or(a: byte, b: byte): byte
  {
    assert Pow2(8) == 256;
    OrBound(a, b, 8);
    OrNat(a, b)
  }

  function Zeros(n: nat): (r: bytes)
    ensures |r| == n
  {
    seq(n, _ => 0)
  }

  function XorSeq(x: bytes, y: bytes): (r: bytes)
    requires |x| == |y|
    ensures |r| == |x|
  {
    seq(|x|, i requires 0 <= i < |x| => Xor(x[i], y[i]))
  }

  lemma XorSeqCommutes(a: bytes, b: bytes)
    requires |a| == |b|
    ensures XorSeq(a, b) == XorSeq(b, a)
  {
    forall i | 0 <= i < |a| ensures XorSeq(a, b)[i] == XorSeq(b, a)[i] {
      XorNatCommutes(a[i], b[i]);
    }
  }

  // ----- big-endian numbers -----

  function Pow256(n: nat): (r: nat)
    ensures r > 0
  {
    if n == 0 then 1 else 256 * Pow256(n - 1)
  }

  /** The k low-order bytes of v, most significant first. */
  function PutBE(v: nat, k: nat): (r: bytes)
    ensures |r| == k
    decreases k
  {
    if k == 0 then [] else PutBE(v / 256, k - 1) + [v % 256]
  }

  function Word(high: nat, low: nat): nat { 256 * high + low }

  function GetBE(s: bytes): nat
  {
    if |s| == 0 then 0 else 256 * GetBE(s[..|s| - 1]) + s[|s| - 1]
  }

  lemma {:induction false} GetPutBE(v: nat, k: nat)
    requires v < Pow256(k)
    ensures GetBE(PutBE(v, k)) == v
    decreases k
  {
    if k != 0 {
      GetPutBE(v / 256, k - 1);
      assert PutBE(v, k)[..k - 1] == PutBE(v / 256, k - 1);
    }
  }

  lemma {:induction false} PutGetBE(s: bytes)
    ensures GetBE(s) < Pow256(|s|)
    ensures PutBE(GetBE(s), |s|) == s
    decreases |s|
  {
    if |s| != 0 {
      PutGetBE(s[..|s| - 1]);
      assert s == s[..|s| - 1] + [s[|s| - 1]];
    }
  }

  // ----- buffers -----

  /** memcpy(b + off, s, |s|), seen as a string. */
  function Splice(b: bytes, off: nat, s: bytes): (r: bytes)
    requires off + |s| <= |b|
    ensures |r| == |b|
  {
    b[..off] + s + b[off + |s|..]
  }

  lemma SpliceTwice(b: bytes, off: nat, s: bytes, t: bytes)
    requires off + |s| + |t| <= |b|
    ensures Splice(Splice(b, off, s), off + |s|, t) == Splice(b, off, s + t)
  {
    var c := Splice(b, off, s);
    assert c[..off + |s|] == b[..off] + s;
    assert c[off + |s| + |t|..] == b[off + |s| + |t|..];
  }

  /** Up to the end of the spliced part. */
  lemma SpliceFront(b: bytes, off: nat, s: bytes)
    requires off + |s| <= |b|
    ensures Splice(b, off, s)[..off + |s|] == b[..off] + s
  {
  }

  lemma SplicePart(b: bytes, off: nat, s: bytes, t: bytes)
    requires off + |s + t| <= |b|
    ensures Splice(b, off, s + t)[off..off + |s|] == s
  {
    var c := Splice(b, off, s + t);
    assert c[..off + |s + t|] == b[..off] + (s + t);
    assert c[off..off + |s|] == c[..off + |s + t|][off..off + |s|];
  }

  /** What lies behind the spliced part is what was there. */
  lemma SpliceBehind(b: bytes, off: nat, s: bytes, len: nat)
    requires off + |s| + len <= |b|
    ensures Splice(b, off, s)[off + |s|..off + |s| + len] == b[off + |s|..off + |s| + len]
  {
    var c := Splice(b, off, s);
    assert c[off + |s|..] == b[off + |s|..];
    assert c[off + |s|..off + |s| + len] == c[off + |s|..][..len];
  }

  /** A list with one element taken out of it. */
  function Without<T>(s: seq<T>, i: nat): (r: seq<T>)
    requires i < |s|
    ensures |r| == |s| - 1
  {
    s[..i] + s[i + 1..]
  }

  method Clear(B: array<byte>)
    modifies B
    ensures B[..] == Zeros(B.Length)
  {
    forall i | 0 <= i < B.Length {
      B[i] := 0;
    }
  }

  /** memcpy(B + off, s, |s|) */
  method Copy(B: array<byte>, off: nat, s: bytes)
    requires off + |s| <= B.Length
    modifies B
    ensures B[..] == old(B[..off]) + s + old(B[off + |s|..])
  {
    forall i | 0 <= i < |s| {
      B[off + i] := s[i];
    }
  }

  /** memxor(B, y, |B|) */
  method XorInto(B: array<byte>, y: bytes)
    requires B.Length == |y|
    modifies B
    ensures B[..] == XorSeq(y, old(B[..]))
  {
    ghost var b := B[..];
    forall i | 0 <= i < B.Length {
      B[i] := Xor(B[i], y[i]);
    }
    assert B[..] == XorSeq(b, y);
    XorSeqCommutes(b, y);
  }
}
