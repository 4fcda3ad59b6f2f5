/**
 * The replay window of one epoch (dtls_handle_message, dtls.c:3815-3858).
 *
 * The window tests and sets bits with an int: 1 << k. What that is for k beyond
 * the width of int is up to the platform, so shifting is a parameter here and
 * every result says up to which width the platform must shift as expected.
 */
module Replay {

  /** A uint64_t as its bits, least significant first. */
  type Bits = b: seq<bool> | |b| == 64 witness seq(64, _ => false)

  function Bit(k: nat): Bits { seq(64, i => i == k) }
  function ShiftLeft(b: Bits, k: nat): Bits { seq(64, i requires 0 <= i < 64 => i >= k && b[i - k]) }
  function BitOr(a: Bits, b: Bits): Bits { seq(64, i requires 0 <= i < 64 => a[i] || b[i]) }
  predicate Meet(a: Bits, b: Bits) { exists i :: 0 <= i < 64 && a[i] && b[i] }

  function AllOnes(): Bits { seq(64, _ => true) }
  function NoBits(): Bits { seq(64, _ => false) }

  /** How the platform evaluates 1 << k as a uint64_t, and b << k. */
  datatype Machine = Machine(one: nat -> Bits, shl: (Bits, nat) -> Bits)

  ghost predicate Shifts(m: Machine) { forall b, k :: k < 64 ==> m.shl(b, k) == ShiftLeft(b, k) }

  /** 1 << k is as expected below width: 31 for a 32-bit int, 64 for a 64-bit one. */
  ghost predicate Conforms(m: Machine, width: nat)
  {
    width <= 64 && Shifts(m) && forall k :: 0 <= k < width ==> m.one(k) == Bit(k)
  }

  datatype State = State(cseq: nat, bitfield: Bits)

  datatype Verdict = Duplicate | TooOld | Decrypted

  /** A record: its number and what decrypt_verify returns for it if asked. */
  datatype Packet = Packet(number: nat, length: int)

  function VerdictOf(m: Machine, w: State, p: Packet): Verdict
  {
    if p.number == 0 && w.cseq == 0 then Decrypted
    else if p.number == w.cseq then Duplicate
    else if p.number < w.cseq then
      var d := w.cseq - 1 - p.number;
      if d >= 64 then TooOld else if Meet(w.bitfield, m.one(d)) then Duplicate else Decrypted
    else Decrypted
  }

  function Next(m: Machine, w: State, p: Packet): State
  {
    if p.number == 0 && w.cseq == 0 then
      if p.length != 0 then State(0, AllOnes()) else w
    else if VerdictOf(m, w, p) != Decrypted || p.length <= 0 then w
    else if p.number < w.cseq then
      w.(bitfield := BitOr(w.bitfield, m.one(w.cseq - 1 - p.number)))
    else
      var g := p.number - w.cseq;
      State(p.number, BitOr(m.shl(w.bitfield, g), m.one(g - 1)))
  }

  /** seqnum_t with the statements of dtls_handle_message. */
  class Window {
    var cseq: nat
    var bitfield: Bits

    function St(): State reads this { State(cseq, bitfield) }

    constructor ()
      ensures St() == State(0, NoBits())
    {
      cseq, bitfield := 0, NoBits();
    }

    method Receive(m: Machine, p: Packet) returns (v: Verdict)
      modifies this
      ensures v == VerdictOf(m, old(St()), p)
      ensures St() == Next(m, old(St()), p)
    {
      if p.number == 0 && cseq == 0 {
        if p.length != 0 {
          cseq := 0;
          bitfield := AllOnes();
        }
        return Decrypted;
      } else if p.number == cseq {
        return Duplicate;
      } else if p.number < cseq {
        if (cseq - 1) - p.number < 64 {
          if Meet(bitfield, m.one((cseq - 1) - p.number)) {
            return Duplicate;
          }
          if p.length > 0 {
            bitfield := BitOr(bitfield, m.one((cseq - 1) - p.number));
          }
          return Decrypted;
        } else {
          return TooOld;
        }
      } else {
        if p.length > 0 {
          bitfield := m.shl(bitfield, p.number - cseq);
          bitfield := BitOr(bitfield, m.one((p.number - cseq) - 1));
          cseq := p.number;
        }
        return Decrypted;
      }
    }
  }

  // ----- what the window means -----

  /** seen: the numbers accepted so far with a non-empty plaintext. */
  ghost predicate Inv(w: State, seen: set<nat>)
  {
    && (forall s :: s in seen ==> s <= w.cseq)
    && (w.cseq > 0 ==> w.cseq in seen)
    && forall i :: 0 <= i < 64 && w.cseq - 1 - i >= 1 ==> (w.bitfield[i] <==> w.cseq - 1 - i in seen)
  }

  predicate Accepts(m: Machine, w: State, p: Packet)
  {
    VerdictOf(m, w, p) == Decrypted && p.length > 0
  }

  ghost function Seen(m: Machine, w: State, p: Packet, seen: set<nat>): set<nat>
  {
    if Accepts(m, w, p) then seen + {p.number} else seen
  }

  /** The shifts this packet causes stay below the width; above the top only one that is accepted causes any. */
  predicate Within(w: State, p: Packet, width: nat)
  {
    if p.number > w.cseq then p.length > 0 ==> p.number - w.cseq <= width && p.number - w.cseq < 64
    else if p.number < w.cseq then w.cseq - 1 - p.number < width || w.cseq - 1 - p.number >= 64
    else true
  }

  /**
   * One packet: a non-zero number reaches decryption exactly when it is unseen
   * and not more than 64 below the top, and the meaning of the bits is kept.
   */
  lemma StepKeeps(m: Machine, width: nat, w: State, p: Packet, seen: set<nat>)
    requires Conforms(m, width) && Inv(w, seen) && Within(w, p, width)
    ensures Inv(Next(m, w, p), Seen(m, w, p, seen))
    ensures p.number >= 1 ==>
              (VerdictOf(m, w, p) == Decrypted <==> p.number !in seen && p.number + 64 >= w.cseq)
  {
    if 0 < p.number < w.cseq {
      var d := w.cseq - 1 - p.number;
      if d < 64 {
        assert Bit(d)[d];
        assert Meet(w.bitfield, m.one(d)) <==> w.bitfield[d];
      }
    } else if p.number > w.cseq && p.length > 0 {
      var g := p.number - w.cseq;
      assert m.one(g - 1) == Bit(g - 1) && m.shl(w.bitfield, g) == ShiftLeft(w.bitfield, g);
    }
  }

  // ----- whole runs -----

  ghost function After(m: Machine, w: State, ps: seq<Packet>): State
  {
    if ps == [] then w else Next(m, After(m, w, ps[..|ps| - 1]), ps[|ps| - 1])
  }

  function Fresh(): State { State(0, NoBits()) }

  ghost function SeenAfter(m: Machine, ps: seq<Packet>): set<nat>
  {
    if ps == [] then {}
    else Seen(m, After(m, Fresh(), ps[..|ps| - 1]), ps[|ps| - 1], SeenAfter(m, ps[..|ps| - 1]))
  }

  ghost predicate RunWithin(m: Machine, ps: seq<Packet>, width: nat)
  {
    forall i :: 0 <= i < |ps| ==> Within(After(m, Fresh(), ps[..i]), ps[i], width)
  }

  ghost predicate AcceptedAt(m: Machine, ps: seq<Packet>, i: nat)
    requires i < |ps|
  {
    Accepts(m, After(m, Fresh(), ps[..i]), ps[i])
  }

  /** The i-th packet of the run carried n and was accepted. */
  ghost predicate Took(m: Machine, ps: seq<Packet>, n: nat, i: nat)
  {
    i < |ps| && ps[i].number == n && AcceptedAt(m, ps, i)
  }

  lemma TookPrefix(m: Machine, ps: seq<Packet>, k: nat, n: nat, i: nat)
    requires i < k <= |ps|
    ensures Took(m, ps[..k], n, i) == Took(m, ps, n, i)
  {
    assert ps[..k][..i] == ps[..i];
  }

  /** The set of numbers seen is the set of numbers accepted somewhere in the run. */
  lemma {:induction false} SeenMeansAccepted(m: Machine, ps: seq<Packet>, n: nat)
    ensures n in SeenAfter(m, ps) <==> exists i :: Took(m, ps, n, i)
    decreases |ps|
  {
    if ps != [] {
      var k := |ps| - 1;
      var qs := ps[..k];
      SeenMeansAccepted(m, qs, n);
      forall i | 0 <= i < k ensures Took(m, qs, n, i) == Took(m, ps, n, i) {
        TookPrefix(m, ps, k, n, i);
      }
      hide Accepts, After;
      assert n in SeenAfter(m, ps) <==> Took(m, ps, n, k) || n in SeenAfter(m, qs);
    }
  }

  /** Over every run the bits say exactly which recent numbers were accepted. */
  lemma {:induction false} RunInvariant(m: Machine, width: nat, ps: seq<Packet>)
    requires Conforms(m, width) && RunWithin(m, ps, width)
    ensures Inv(After(m, Fresh(), ps), SeenAfter(m, ps))
    decreases |ps|
  {
    if ps != [] {
      var k := |ps| - 1;
      var qs := ps[..k];
      forall i | 0 <= i < k ensures Within(After(m, Fresh(), qs[..i]), qs[i], width) {
        assert qs[..i] == ps[..i];
      }
      RunInvariant(m, width, qs);
      StepKeeps(m, width, After(m, Fresh(), qs), ps[k], SeenAfter(m, qs));
    }
  }

  /** No non-zero number is accepted twice. */
  lemma NoReplay(m: Machine, width: nat, ps: seq<Packet>, i: nat, j: nat)
    requires Conforms(m, width) && RunWithin(m, ps, width)
    requires i < j < |ps| && ps[i].number == ps[j].number >= 1
    ensures !(AcceptedAt(m, ps, i) && AcceptedAt(m, ps, j))
  {
    var qs := ps[..j];
    forall k | 0 <= k < j ensures Within(After(m, Fresh(), qs[..k]), qs[k], width) && qs[..k] == ps[..k] {
      assert qs[..k] == ps[..k];
    }
    RunInvariant(m, width, qs);
    SeenMeansAccepted(m, qs, ps[i].number);
    TookPrefix(m, ps, j, ps[i].number, i);
    StepKeeps(m, width, After(m, Fresh(), qs), ps[j], SeenAfter(m, qs));
  }

  // ----- number 0 -----

  /** The bit that stands for number 0 is set as soon as there is one, whether 0 came or not. */
  ghost predicate ZeroBit(w: State) { 0 < w.cseq <= 64 ==> w.bitfield[w.cseq - 1] }

  lemma ZeroBitStays(m: Machine, width: nat, w: State, p: Packet)
    requires Conforms(m, width) && ZeroBit(w) && Within(w, p, width)
    ensures ZeroBit(Next(m, w, p))
  {
    if p.number > w.cseq && p.length > 0 {
      var g := p.number - w.cseq;
      assert m.one(g - 1) == Bit(g - 1) && m.shl(w.bitfield, g) == ShiftLeft(w.bitfield, g);
    }
  }

  lemma {:induction false} ZeroBitInEveryRun(m: Machine, width: nat, ps: seq<Packet>)
    requires Conforms(m, width) && RunWithin(m, ps, width)
    ensures ZeroBit(After(m, Fresh(), ps))
    decreases |ps|
  {
    if ps != [] {
      var k := |ps| - 1;
      var qs := ps[..k];
      forall i | 0 <= i < k ensures Within(After(m, Fresh(), qs[..i]), qs[i], width) {
        assert qs[..i] == ps[..i];
      }
      ZeroBitInEveryRun(m, width, qs);
      ZeroBitStays(m, width, After(m, Fresh(), qs), ps[k]);
    }
  }

  /**
   * Number 0 reaches decryption exactly as long as no other number was accepted:
   * any number of times before, and never afterwards, even if it did not come.
   */
  lemma ZeroReachesDecryption(m: Machine, width: nat, ps: seq<Packet>, p: Packet)
    requires Conforms(m, width) && RunWithin(m, ps, width)
    requires Within(After(m, Fresh(), ps), p, width) && p.number == 0
    ensures VerdictOf(m, After(m, Fresh(), ps), p) == Decrypted
       <==> forall i :: 0 <= i < |ps| && AcceptedAt(m, ps, i) ==> ps[i].number == 0
  {
    RunInvariant(m, width, ps);
    ZeroBitInEveryRun(m, width, ps);
    var w, seen := After(m, Fresh(), ps), SeenAfter(m, ps);
    ZeroVerdict(m, width, w, p);
    SeenMeansAccepted(m, ps, w.cseq);
    hide After, VerdictOf, Accepts, SeenAfter;
    if w.cseq > 0 {
      var i :| Took(m, ps, w.cseq, i);
    } else {
      forall i | 0 <= i < |ps| && AcceptedAt(m, ps, i) ensures ps[i].number == 0 {
        SeenMeansAccepted(m, ps, ps[i].number);
        assert Took(m, ps, ps[i].number, i);
      }
    }
  }

  lemma ZeroVerdict(m: Machine, width: nat, w: State, p: Packet)
    requires Conforms(m, width) && ZeroBit(w) && Within(w, p, width) && p.number == 0
    ensures VerdictOf(m, w, p) == Decrypted <==> w.cseq == 0
  {
    if 0 < w.cseq <= 64 {
      var d := w.cseq - 1;
      assert Bit(d)[d] && w.bitfield[d] && m.one(d) == Bit(d);
    }
  }

  /** What is accepted twice, whatever the run: only number 0, and only before anything else was accepted. */
  lemma TwiceOnlyIfZero(m: Machine, width: nat, ps: seq<Packet>, i: nat, j: nat)
    requires Conforms(m, width) && RunWithin(m, ps, width)
    requires i < j < |ps| && ps[i].number == ps[j].number && AcceptedAt(m, ps, i) && AcceptedAt(m, ps, j)
    ensures ps[i].number == 0 && forall k :: 0 <= k < j && AcceptedAt(m, ps, k) ==> ps[k].number == 0
  {
    if ps[i].number >= 1 {
      NoReplay(m, width, ps, i, j);
    } else {
      var qs := ps[..j];
      forall k | 0 <= k < j ensures Within(After(m, Fresh(), qs[..k]), qs[k], width) && qs[..k] == ps[..k] {
        assert qs[..k] == ps[..k];
      }
      ZeroReachesDecryption(m, width, qs, ps[j]);
      hide After, VerdictOf;
      assert forall k :: 0 <= k < j ==> AcceptedAt(m, qs, k) == AcceptedAt(m, ps, k);
    }
  }

  /** Number 0 twice is accepted twice. */
  lemma ZeroTwice(m: Machine)
    ensures var ps := [Packet(0, 5), Packet(0, 5)]; AcceptedAt(m, ps, 0) && AcceptedAt(m, ps, 1)
  {
    var ps := [Packet(0, 5), Packet(0, 5)];
    assert ps[..0] == [] && ps[..1] == [ps[0]] && [ps[0]][..0] == [];
    assert After(m, Fresh(), []) == Fresh();
    assert After(m, Fresh(), [ps[0]]) == Next(m, Fresh(), ps[0]);
  }

  /** Number 0 behind number 1 is taken for a duplicate, though it never came. */
  lemma ZeroOvertaken(m: Machine)
    requires Conforms(m, 1)
    ensures var ps := [Packet(1, 5)];
            AcceptedAt(m, ps, 0) && VerdictOf(m, After(m, Fresh(), ps), Packet(0, 5)) == Duplicate
  {
    var ps := [Packet(1, 5)];
    assert ps[..0] == [];
    assert After(m, Fresh(), []) == Fresh();
    assert After(m, Fresh(), ps) == Next(m, Fresh(), ps[0]);
    assert Bit(0)[0] && m.one(0) == Bit(0);
  }

  /** Every unseen number up to 64 below the top reaches decryption, whatever came before. */
  lemma UnseenReachesDecryption(m: Machine, width: nat, ps: seq<Packet>, p: Packet)
    requires Conforms(m, width) && RunWithin(m, ps, width)
    requires Within(After(m, Fresh(), ps), p, width)
    requires p.number >= 1 && p.number + 64 >= After(m, Fresh(), ps).cseq
    requires forall i :: !Took(m, ps, p.number, i)
    ensures VerdictOf(m, After(m, Fresh(), ps), p) == Decrypted
  {
    RunInvariant(m, width, ps);
    SeenMeansAccepted(m, ps, p.number);
    StepKeeps(m, width, After(m, Fresh(), ps), p, SeenAfter(m, ps));
  }

  // ----- how wide 1 << k has to be -----

  /** The bits keep their meaning whatever packet comes, as long as it stays within width. */
  ghost predicate KeepsMeaning(m: Machine, width: nat)
  {
    forall w, p, seen :: Inv(w, seen) && Within(w, p, width) ==> Inv(Next(m, w, p), Seen(m, w, p, seen))
  }

  /** Given proper 64-bit shifts, the window is right up to a width exactly when 1 << k is. */
  lemma WidthNeeded(m: Machine, width: nat)
    requires Shifts(m) && width <= 64
    ensures KeepsMeaning(m, width) <==> Conforms(m, width)
  {
    if Conforms(m, width) {
      forall w, p, seen | Inv(w, seen) && Within(w, p, width) ensures Inv(Next(m, w, p), Seen(m, w, p, seen)) {
        StepKeeps(m, width, w, p, seen);
      }
    }
    if KeepsMeaning(m, width) {
      forall k | 0 <= k < width ensures m.one(k) == Bit(k) {
        var w, p, seen := State(200, NoBits()), Packet(199 - k, 1), {200};
        assert Inv(w, seen) && Within(w, p, width);
        var x := Next(m, w, p);
        assert VerdictOf(m, w, p) == Decrypted;
        assert x.bitfield == BitOr(NoBits(), m.one(k));
        assert Seen(m, w, p, seen) == {200, 199 - k};
        assert Inv(x, {200, 199 - k});
        forall i | 0 <= i < 64 ensures m.one(k)[i] == (i == k) {
          assert x.bitfield[i] <==> 199 - i in {200, 199 - k};
        }
      }
    }
  }

  /** 1 << k on a 32-bit int that sign-extends at bit 31 and shifts to 0 beyond. */
  function One32(k: nat): Bits
  {
    if k < 31 then Bit(k) else if k == 31 then seq(64, i => i >= 31) else NoBits()
  }

  function Int32(): Machine { Machine(One32, ShiftLeft) }

  /** It conforms below width 31 and no further, and then a number can be accepted twice. */
  lemma Int32Replays()
    ensures Conforms(Int32(), 31) && !Conforms(Int32(), 32)
    ensures var ps := [Packet(1, 5), Packet(40, 5), Packet(1, 5)];
            AcceptedAt(Int32(), ps, 0) && AcceptedAt(Int32(), ps, 2)
  {
    assert Bit(31)[32] == false;
    var ps := [Packet(1, 5), Packet(40, 5), Packet(1, 5)];
    var m, q := Int32(), ps[..2];
    assert ps[..0] == [] && ps[..1] == [ps[0]] && q[..1] == [ps[0]] && [ps[0]][..0] == [];
    assert After(m, Fresh(), []) == Fresh();
    assert After(m, Fresh(), [ps[0]]) == Next(m, Fresh(), ps[0]);
    var w1 := Next(m, Fresh(), ps[0]);
    assert w1.cseq == 1;
    assert After(m, Fresh(), q) == Next(m, w1, ps[1]);
    var w2 := Next(m, w1, ps[1]);
    assert w2 == State(40, BitOr(ShiftLeft(w1.bitfield, 39), NoBits()));
    assert !Meet(w2.bitfield, NoBits());
  }
}
