/**
 * The hash table (uthash.h): buckets of chained items, a list of all items in
 * the order of insertion, and doubling of the buckets. The hash function is an
 * arbitrary one; chains and list are sequences.
 *
 * It holds the peers in builds without DTLS_PEERS_NOHASH. The platform headers
 * that come with the SDK define that, and keep the peers in a plain list.
 */
module UtHash {
  import opened Bytes

  const INITIAL_LOG2 := 5
  const CAPACITY_THRESH := 10

  type Key = bytes

  datatype Item = Item(key: Key, value: int)

  type Fn = Key -> nat

  datatype Maybe<+T> = Nothing | Just(value: T)

  // ----- hashv & (num_buckets - 1) -----

  function And(a: nat, b: nat): nat
    decreases a
  {
    if a == 0 || b == 0 then 0
    else 2 * And(a / 2, b / 2) + (if a % 2 == 1 && b % 2 == 1 then 1 else 0)
  }

  /** With a power of two, masking is the remainder. */
  lemma {:induction false} MaskIsRemainder(a: nat, n: nat)
    ensures And(a, Pow2(n) - 1) == a % Pow2(n)
    decreases n
  {
    if n > 0 {
      var p := Pow2(n - 1);
      MaskIsRemainder(a / 2, n - 1);
      assert (2 * p - 1) / 2 == p - 1 && (2 * p - 1) % 2 == 1;
      HalfRemainder(a, p);
    }
  }

  lemma HalfRemainder(a: nat, p: nat)
    requires p > 0
    ensures a % (2 * p) == 2 * (a / 2 % p) + a % 2
  {
    var q, r := a / 2 / p, a / 2 % p;
    assert a / 2 == p * q + r;
    assert a == 2 * (p * q + r) + a % 2;
    assert 2 * (p * q) == (2 * p) * q;
    Remainder(a, 2 * p, q, 2 * r + a % 2);
  }

  lemma Remainder(a: nat, d: nat, q: nat, r: nat)
    requires d > 0 && a == d * q + r && r < d
    ensures a % d == r && a / d == q
  {
    var k := a / d;
    assert a == d * k + a % d;
    if k < q {
      Grows(d, k + 1, q);
    } else if k > q {
      Grows(d, q + 1, k);
    }
  }

  lemma Grows(d: nat, x: nat, y: nat)
    requires x <= y
    ensures d * x <= d * y
  {
  }

  // ----- the table -----

  datatype Bucket = Bucket(chain: seq<Item>, count: nat, mult: nat)

  datatype Table = Table(order: seq<Item>, buckets: seq<Bucket>, log2: nat, items: nat, ideal: nat, nonideal: nat,
                         ineffective: nat, noexpand: bool)

  datatype Hash = Null | Hash(table: Table)

  /** HASH_TO_BKT */
  function Home(hash: Fn, key: Key, n: nat): nat
    requires n > 0
  {
    And(hash(key), n - 1)
  }

  function EmptyBuckets(n: nat): (r: seq<Bucket>)
    ensures |r| == n
  {
    seq(n, _ => Bucket([], 0, 0))
  }

  /** HASH_MAKE_TABLE with one item in its list and nothing in its buckets yet */
  function NewTable(item: Item): Table
  {
    Table([item], EmptyBuckets(Pow2(INITIAL_LOG2)), INITIAL_LOG2, 0, 0, 0, 0, false)
  }

  function Push(b: Bucket, item: Item): Bucket { Bucket([item] + b.chain, b.count + 1, b.mult) }

  // ----- HASH_EXPAND_BUCKETS -----

  datatype Pouring = Pouring(buckets: seq<Bucket>, nonideal: nat)

  /** One item goes to its new bucket. */
  function Pour(hash: Fn, ideal: nat, p: Pouring, item: Item): (r: Pouring)
    requires p.buckets != [] && ideal > 0 && Home(hash, item.key, |p.buckets|) < |p.buckets|
    ensures |r.buckets| == |p.buckets|
  {
    var i := Home(hash, item.key, |p.buckets|);
    var b := p.buckets[i];
    var over := b.count + 1 > ideal;
    Pouring(p.buckets[i := Bucket([item] + b.chain, b.count + 1, if over then (b.count + 1) / ideal else b.mult)],
            if over then p.nonideal + 1 else p.nonideal)
  }

  lemma HomeInside(hash: Fn, key: Key, log2: nat)
    ensures Home(hash, key, Pow2(log2)) < Pow2(log2)
    ensures Home(hash, key, Pow2(log2)) == hash(key) % Pow2(log2)
  {
    MaskIsRemainder(hash(key), log2);
  }

  function PourChain(hash: Fn, ideal: nat, log2: nat, p: Pouring, chain: seq<Item>): (r: Pouring)
    requires |p.buckets| == Pow2(log2) && ideal > 0
    ensures |r.buckets| == |p.buckets|
  {
    if chain == [] then p
    else
      var q := PourChain(hash, ideal, log2, p, chain[..|chain| - 1]);
      HomeInside(hash, chain[|chain| - 1].key, log2);
      Pour(hash, ideal, q, chain[|chain| - 1])
  }

  function PourAll(hash: Fn, ideal: nat, log2: nat, p: Pouring, buckets: seq<Bucket>): (r: Pouring)
    requires |p.buckets| == Pow2(log2) && ideal > 0
    ensures |r.buckets| == |p.buckets|
  {
    if buckets == [] then p
    else
      PourChain(hash, ideal, log2, PourAll(hash, ideal, log2, p, buckets[..|buckets| - 1]), buckets[|buckets| - 1].chain)
  }

  function Quotient(a: nat, b: nat): nat
    requires b > 0
  {
    a / b
  }

  /** The shift and the mask of the source. */
  function IdealLength(items: nat, log2: nat): nat
  {
    Quotient(items, Pow2(log2 + 1)) + (if And(items, Pow2(log2 + 1) - 1) != 0 then 1 else 0)
  }

  function Expand(hash: Fn, t: Table): Table
    requires t.items > 0
  {
    IdealPositive(t.items, t.log2);
    var ideal := IdealLength(t.items, t.log2);
    var p := PourAll(hash, ideal, t.log2 + 1, Pouring(EmptyBuckets(Pow2(t.log2 + 1)), 0), t.buckets);
    var ineffective := if p.nonideal > t.items / 2 then t.ineffective + 1 else 0;
    t.(buckets := p.buckets, log2 := t.log2 + 1, ideal := ideal, nonideal := p.nonideal, ineffective := ineffective,
       noexpand := t.noexpand || ineffective > 1)
  }

  /** It is the quotient, rounded up. */
  lemma IdealIsCeiling(items: nat, log2: nat)
    ensures var b := Pow2(log2 + 1); var c := IdealLength(items, log2);
            c * b >= items && (items > 0 ==> (c - 1) * b < items)
  {
    var b := Pow2(log2 + 1);
    MaskIsRemainder(items, log2 + 1);
    DivMod(items, b);
    hide And, Pow2, Quotient;
    Ceiling(items, b, Quotient(items, b), And(items, b - 1));
  }

  lemma DivMod(a: nat, b: nat)
    requires b > 0
    ensures a == b * Quotient(a, b) + a % b && a % b < b
  {
  }

  lemma Ceiling(items: nat, b: nat, q: nat, r: nat)
    requires items == b * q + r && r < b
    ensures var c := q + (if r != 0 then 1 else 0); c * b >= items && (items > 0 ==> (c - 1) * b < items)
  {
    assert (q + 1) * b == b * q + b && (q - 1) * b == b * q - b && q * b == b * q;
  }

  lemma IdealPositive(items: nat, log2: nat)
    requires items > 0
    ensures IdealLength(items, log2) > 0
  {
    IdealIsCeiling(items, log2);
  }

  // ----- the operations -----

  /** HASH_ADD_TO_TABLE with HASH_ADD_TO_BKT */
  function AddToTable(hash: Fn, t: Table, item: Item): Table
    requires |t.buckets| == Pow2(t.log2)
  {
    HomeInside(hash, item.key, t.log2);
    var i := Home(hash, item.key, |t.buckets|);
    var b := Push(t.buckets[i], item);
    var t1 := t.(items := t.items + 1, buckets := t.buckets[i := b]);
    if b.count >= (b.mult + 1) * CAPACITY_THRESH && !t1.noexpand then Expand(hash, t1) else t1
  }

  /** HASH_ADD_KEYPTR_BYHASHVALUE */
  function Add(hash: Fn, h: Hash, item: Item): Hash
    requires h.Hash? ==> |h.table.buckets| == Pow2(h.table.log2)
  {
    match h
    case Null => Hash(AddToTable(hash, NewTable(item), item))
    case Hash(t) => Hash(AddToTable(hash, t.(order := t.order + [item]), item))
  }

  function Place(s: seq<Item>, key: Key): (i: nat)
    ensures i <= |s| && (i < |s| ==> s[i].key == key)
    ensures forall j :: 0 <= j < i ==> s[j].key != key
  {
    if s == [] || s[0].key == key then 0 else Place(s[1..], key) + 1
  }

  /** HASH_FIND_BYHASHVALUE */
  function Find(hash: Fn, h: Hash, key: Key): Maybe<Item>
    requires h.Hash? ==> |h.table.buckets| == Pow2(h.table.log2)
  {
    match h
    case Null => Nothing
    case Hash(t) =>
      HomeInside(hash, key, t.log2);
      var chain := t.buckets[Home(hash, key, |t.buckets|)].chain;
      var i := Place(chain, key);
      if i < |chain| then Just(chain[i]) else Nothing
  }

  function Less(b: Bucket, j: nat): Bucket
    requires j < |b.chain|
  {
    b.(chain := Without(b.chain, j), count := if b.count > 0 then b.count - 1 else 0)
  }

  function Remove(hash: Fn, t: Table, key: Key): Table
    requires |t.buckets| == Pow2(t.log2) && Find(hash, Hash(t), key).Just?
  {
    HomeInside(hash, key, t.log2);
    var i := Home(hash, key, |t.buckets|);
    var b, k := t.buckets[i], Place(t.order, key);
    t.(order := if k < |t.order| then Without(t.order, k) else t.order,
       buckets := t.buckets[i := Less(b, Place(b.chain, key))],
       items := if t.items > 0 then t.items - 1 else 0)
  }

  /** HASH_DELETE_HH of the item with this key, if there is one; the last one takes the table along. */
  function Delete(hash: Fn, h: Hash, key: Key): Hash
    requires h.Hash? ==> |h.table.buckets| == Pow2(h.table.log2)
  {
    if Find(hash, h, key).Nothing? then h
    else if |h.table.order| <= 1 then Null
    else Hash(Remove(hash, h.table, key))
  }

  // ----- the invariant -----

  function Content(buckets: seq<Bucket>): multiset<Item>
  {
    if buckets == [] then multiset{} else Content(buckets[..|buckets| - 1]) + multiset(buckets[|buckets| - 1].chain)
  }

  function CountSum(buckets: seq<Bucket>): nat
  {
    if buckets == [] then 0 else CountSum(buckets[..|buckets| - 1]) + buckets[|buckets| - 1].count
  }

  function Excess(b: Bucket, ideal: nat): nat { if b.count > ideal then b.count - ideal else 0 }

  function ExcessSum(buckets: seq<Bucket>, ideal: nat): nat
  {
    if buckets == [] then 0 else ExcessSum(buckets[..|buckets| - 1], ideal) + Excess(buckets[|buckets| - 1], ideal)
  }

  /** Each item sits in the bucket of its hash, and the bucket knows how many it has. */
  ghost predicate InPlace(hash: Fn, buckets: seq<Bucket>, log2: nat)
  {
    && |buckets| == Pow2(log2)
    && forall i :: 0 <= i < |buckets| ==>
                     && buckets[i].count == |buckets[i].chain|
                     && forall x :: x in buckets[i].chain ==> hash(x.key) % Pow2(log2) == i
  }

  ghost predicate DistinctKeys(s: seq<Item>) { forall i, j :: 0 <= i < j < |s| ==> s[i].key != s[j].key }

  ghost predicate TableInv(hash: Fn, t: Table)
  {
    && InPlace(hash, t.buckets, t.log2) && Content(t.buckets) == multiset(t.order) && DistinctKeys(t.order)
    && t.items == |t.order| > 0 && CountSum(t.buckets) == t.items
  }

  ghost predicate Inv(hash: Fn, h: Hash) { h.Hash? ==> TableInv(hash, h.table) }

  // ----- sums under an update -----

  lemma {:induction false} ContentUpdate(buckets: seq<Bucket>, i: nat, b: Bucket)
    requires i < |buckets|
    ensures Content(buckets[i := b]) + multiset(buckets[i].chain) == Content(buckets) + multiset(b.chain)
    decreases |buckets|
  {
    var n, now := |buckets| - 1, buckets[i := b];
    var before, after := multiset(buckets[i].chain), multiset(b.chain);
    if i < n {
      ContentUpdate(buckets[..n], i, b);
      assert now[..n] == buckets[..n][i := b];
      var last := multiset(buckets[n].chain);
      assert Content(now) == Content(now[..n]) + last;
      assert Content(now[..n]) + last + before == (Content(now[..n]) + before) + last;
      assert Content(buckets[..n]) + after + last == Content(buckets) + after;
    } else {
      assert now[..n] == buckets[..n];
    }
  }

  lemma {:induction false} CountUpdate(buckets: seq<Bucket>, i: nat, b: Bucket)
    requires i < |buckets|
    ensures CountSum(buckets[i := b]) + buckets[i].count == CountSum(buckets) + b.count
    decreases |buckets|
  {
    var n := |buckets| - 1;
    if i < n {
      CountUpdate(buckets[..n], i, b);
      assert buckets[i := b][..n] == buckets[..n][i := b];
    } else {
      assert buckets[i := b][..n] == buckets[..n];
    }
  }

  lemma {:induction false} ExcessUpdate(buckets: seq<Bucket>, i: nat, b: Bucket, ideal: nat)
    requires i < |buckets|
    ensures ExcessSum(buckets[i := b], ideal) + Excess(buckets[i], ideal) == ExcessSum(buckets, ideal) + Excess(b, ideal)
    decreases |buckets|
  {
    var n := |buckets| - 1;
    if i < n {
      ExcessUpdate(buckets[..n], i, b, ideal);
      assert buckets[i := b][..n] == buckets[..n][i := b];
    } else {
      assert buckets[i := b][..n] == buckets[..n];
    }
  }

  lemma {:induction false} EmptySums(n: nat, ideal: nat)
    ensures Content(EmptyBuckets(n)) == multiset{} && CountSum(EmptyBuckets(n)) == 0
    ensures ExcessSum(EmptyBuckets(n), ideal) == 0
    decreases n
  {
    if n > 0 {
      EmptySums(n - 1, ideal);
      assert EmptyBuckets(n)[..n - 1] == EmptyBuckets(n - 1);
    }
  }

  // ----- doubling -----

  ghost predicate Poured(hash: Fn, ideal: nat, log2: nat, p: Pouring, content: multiset<Item>)
  {
    && InPlace(hash, p.buckets, log2) && Content(p.buckets) == content && CountSum(p.buckets) == |content|
    && p.nonideal == ExcessSum(p.buckets, ideal)
  }

  lemma InPlaceUpdate(hash: Fn, buckets: seq<Bucket>, log2: nat, i: nat, b: Bucket)
    requires InPlace(hash, buckets, log2) && i < |buckets| && b.count == |b.chain|
    requires forall x :: x in b.chain ==> hash(x.key) % Pow2(log2) == i
    ensures InPlace(hash, buckets[i := b], log2)
  {
    hide Pow2;
  }

  lemma PourKeeps(hash: Fn, ideal: nat, log2: nat, p: Pouring, content: multiset<Item>, item: Item)
    requires Poured(hash, ideal, log2, p, content) && ideal > 0
    ensures Home(hash, item.key, |p.buckets|) < |p.buckets|
    ensures Poured(hash, ideal, log2, Pour(hash, ideal, p, item), content + multiset{item})
  {
    HomeInside(hash, item.key, log2);
    hide And, Pow2, Content, CountSum, ExcessSum;
    var i := Home(hash, item.key, |p.buckets|);
    var b, b' := p.buckets[i], Pour(hash, ideal, p, item).buckets[i];
    hide Home;
    assert b'.chain == [item] + b.chain;
    InPlaceUpdate(hash, p.buckets, log2, i, b');
    ContentUpdate(p.buckets, i, b');
    CountUpdate(p.buckets, i, b');
    ExcessUpdate(p.buckets, i, b', ideal);
    OneMore(Content(p.buckets[i := b']), content, b.chain, item);
  }

  lemma OneMore(now: multiset<Item>, content: multiset<Item>, chain: seq<Item>, item: Item)
    requires now + multiset(chain) == content + multiset([item] + chain)
    ensures now == content + multiset{item}
  {
    assert multiset([item] + chain) == multiset{item} + multiset(chain);
    forall x ensures now[x] == (content + multiset{item})[x] {
      assert (now + multiset(chain))[x] == (content + multiset{item} + multiset(chain))[x];
    }
  }

  lemma {:induction false} PourChainKeeps(hash: Fn, ideal: nat, log2: nat, p: Pouring, content: multiset<Item>,
                                          chain: seq<Item>)
    requires Poured(hash, ideal, log2, p, content) && ideal > 0
    ensures Poured(hash, ideal, log2, PourChain(hash, ideal, log2, p, chain), content + multiset(chain))
    decreases |chain|
  {
    hide Poured, Pour;
    PouredSize(hash, ideal, log2, p, content);
    if chain == [] {
      assert content + multiset(chain) == content;
    } else {
      var n := |chain| - 1;
      PourChainKeeps(hash, ideal, log2, p, content, chain[..n]);
      PourKeeps(hash, ideal, log2, PourChain(hash, ideal, log2, p, chain[..n]), content + multiset(chain[..n]), chain[n]);
      assert chain == chain[..n] + [chain[n]];
      assert content + multiset(chain[..n]) + multiset{chain[n]} == content + multiset(chain);
    }
  }

  lemma PouredSize(hash: Fn, ideal: nat, log2: nat, p: Pouring, content: multiset<Item>)
    requires Poured(hash, ideal, log2, p, content)
    ensures |p.buckets| == Pow2(log2)
  {
  }

  lemma {:induction false} PourAllKeeps(hash: Fn, ideal: nat, log2: nat, p: Pouring, content: multiset<Item>,
                                        buckets: seq<Bucket>)
    requires Poured(hash, ideal, log2, p, content) && ideal > 0
    ensures |p.buckets| == Pow2(log2)
    ensures Poured(hash, ideal, log2, PourAll(hash, ideal, log2, p, buckets), content + Content(buckets))
    decreases |buckets|
  {
    hide Poured, PourChain;
    PouredSize(hash, ideal, log2, p, content);
    if buckets == [] {
      assert content + Content(buckets) == content;
    } else {
      var n := |buckets| - 1;
      PourAllKeeps(hash, ideal, log2, p, content, buckets[..n]);
      PourChainKeeps(hash, ideal, log2, PourAll(hash, ideal, log2, p, buckets[..n]), content + Content(buckets[..n]),
                     buckets[n].chain);
      assert content + Content(buckets[..n]) + multiset(buckets[n].chain) == content + Content(buckets);
    }
  }

  /** What the table is without the invariant about its buckets' number of items in sight. */
  ghost predicate Holds(hash: Fn, t: Table)
  {
    InPlace(hash, t.buckets, t.log2) && Content(t.buckets) == multiset(t.order) && CountSum(t.buckets) == |t.order|
  }

  /**
   * Doubling the buckets keeps every item, puts each in the bucket of its hash,
   * and counts the items beyond the ideal length, which is the number of items
   * divided by the new number of buckets, rounded up.
   */
  lemma ExpandKeeps(hash: Fn, t: Table)
    requires Holds(hash, t) && t.items == |t.order| > 0
    ensures var e := Expand(hash, t);
            && Holds(hash, e) && e.order == t.order && e.items == t.items && e.log2 == t.log2 + 1
            && |e.buckets| == 2 * |t.buckets|
            && e.ideal == IdealLength(t.items, t.log2) && e.nonideal == ExcessSum(e.buckets, e.ideal)
  {
    IdealPositive(t.items, t.log2);
    var ideal, log2 := IdealLength(t.items, t.log2), t.log2 + 1;
    EmptySums(Pow2(log2), ideal);
    var p0 := Pouring(EmptyBuckets(Pow2(log2)), 0);
    assert Poured(hash, ideal, log2, p0, multiset{});
    PourAllKeeps(hash, ideal, log2, p0, multiset{}, t.buckets);
    assert multiset{} + Content(t.buckets) == Content(t.buckets);
    hide PourAll, Content, CountSum, ExcessSum, IdealLength;
  }

  // ----- finding -----

  lemma {:induction false} InContent(buckets: seq<Bucket>, x: Item)
    ensures x in Content(buckets) <==> exists i :: 0 <= i < |buckets| && x in buckets[i].chain
    decreases |buckets|
  {
    if buckets != [] {
      var n := |buckets| - 1;
      assert Content(buckets) == Content(buckets[..n]) + multiset(buckets[n].chain);
      hide Content;
      InContent(buckets[..n], x);
      InLast(Content(buckets[..n]), buckets[n].chain, x);
      if i :| 0 <= i < n && x in buckets[..n][i].chain {
        assert x in buckets[i].chain;
      }
      if i :| 0 <= i < |buckets| && x in buckets[i].chain && i < n {
        assert x in buckets[..n][i].chain;
      }
    }
  }

  lemma InLast(m: multiset<Item>, chain: seq<Item>, x: Item)
    ensures x in m + multiset(chain) <==> x in m || x in chain
  {
    assert x in multiset(chain) <==> x in chain;
  }

  /** An item of the table is in the bucket of its key and in no other. */
  lemma HomeHolds(hash: Fn, t: Table, x: Item)
    requires Holds(hash, t)
    ensures Home(hash, x.key, |t.buckets|) < |t.buckets|
    ensures x in t.order <==> x in t.buckets[Home(hash, x.key, |t.buckets|)].chain
  {
    HomeInside(hash, x.key, t.log2);
    InContent(t.buckets, x);
    assert x in multiset(t.order) <==> x in t.order;
    hide Home, Content, CountSum;
    if x in t.order {
      var i :| 0 <= i < |t.buckets| && x in t.buckets[i].chain;
    }
  }

  /** Find gives the item with the key, if and only if there is one. */
  lemma FindFinds(hash: Fn, t: Table, key: Key)
    requires Holds(hash, t) && DistinctKeys(t.order)
    ensures var r := Find(hash, Hash(t), key);
            && (r.Just? ==> r.value in t.order && r.value.key == key)
            && (r.Nothing? ==> forall x :: x in t.order ==> x.key != key)
    ensures forall x :: x in t.order && x.key == key ==> Find(hash, Hash(t), key) == Just(x)
  {
    HomeInside(hash, key, t.log2);
    var r := Find(hash, Hash(t), key);
    var chain := t.buckets[Home(hash, key, |t.buckets|)].chain;
    if r.Just? {
      assert r.value in chain;
      HomeHolds(hash, t, r.value);
    }
    forall x | x in t.order && x.key == key ensures r == Just(x) {
      HomeHolds(hash, t, x);
      hide Home, Holds;
      var i :| 0 <= i < |chain| && chain[i] == x;
      SameItem(t.order, r.value, x);
    }
  }

  lemma SameItem(s: seq<Item>, x: Item, y: Item)
    requires DistinctKeys(s) && x in s && y in s && x.key == y.key
    ensures x == y
  {
  }

  /** Doubling changes nothing that can be found. */
  lemma ExpandKeepsFinds(hash: Fn, t: Table, key: Key)
    requires TableInv(hash, t)
    ensures |Expand(hash, t).buckets| == Pow2(Expand(hash, t).log2)
    ensures Find(hash, Hash(Expand(hash, t)), key) == Find(hash, Hash(t), key)
  {
    ExpandKeeps(hash, t);
    FindFinds(hash, t, key);
    FindFinds(hash, Expand(hash, t), key);
    hide Expand, Find, Holds;
  }

  // ----- adding -----

  ghost predicate Absent(s: seq<Item>, key: Key) { forall i :: 0 <= i < |s| ==> s[i].key != key }

  /** The order has one item more than the buckets: the one that is about to be added. */
  lemma AddToTableKeeps(hash: Fn, t: Table, item: Item)
    requires InPlace(hash, t.buckets, t.log2) && t.order != [] && t.order[|t.order| - 1] == item
    requires Content(t.buckets) + multiset{item} == multiset(t.order) && DistinctKeys(t.order)
    requires t.items + 1 == |t.order| && CountSum(t.buckets) == t.items
    ensures TableInv(hash, AddToTable(hash, t, item)) && AddToTable(hash, t, item).order == t.order
  {
    HomeInside(hash, item.key, t.log2);
    hide And, Pow2, Content, CountSum, Expand;
    var i := Home(hash, item.key, |t.buckets|);
    var b := Push(t.buckets[i], item);
    hide Home;
    InPlaceUpdate(hash, t.buckets, t.log2, i, b);
    ContentUpdate(t.buckets, i, b);
    CountUpdate(t.buckets, i, b);
    OneMore(Content(t.buckets[i := b]), Content(t.buckets), t.buckets[i].chain, item);
    var t1 := t.(items := t.items + 1, buckets := t.buckets[i := b]);
    assert Holds(hash, t1);
    ExpandKeeps(hash, t1);
  }

  lemma AddKeeps(hash: Fn, h: Hash, item: Item)
    requires Inv(hash, h) && (h.Hash? ==> Absent(h.table.order, item.key))
    ensures Inv(hash, Add(hash, h, item)) && Add(hash, h, item).Hash?
    ensures Add(hash, h, item).table.order == if h.Null? then [item] else h.table.order + [item]
  {
    if h.Null? {
      var t := NewTable(item);
      EmptySums(Pow2(INITIAL_LOG2), 0);
      assert multiset(t.order) == multiset{item};
      hide AddToTable, Content, CountSum;
      AddToTableKeeps(hash, t, item);
    } else {
      var t := h.table.(order := h.table.order + [item]);
      hide AddToTable, Content, CountSum;
      AddToTableKeeps(hash, t, item);
    }
  }

  // ----- deleting -----

  lemma OutMultiset(s: seq<Item>, i: nat)
    requires i < |s|
    ensures multiset(Without(s, i)) + multiset{s[i]} == multiset(s)
  {
    assert s == s[..i] + [s[i]] + s[i + 1..];
  }

  lemma OneLess(now: multiset<Item>, content: multiset<Item>, chain: seq<Item>, chain': seq<Item>, x: Item)
    requires now + multiset(chain) == content + multiset(chain') && multiset(chain') + multiset{x} == multiset(chain)
    ensures now + multiset{x} == content
  {
    forall y ensures (now + multiset{x})[y] == content[y] {
      assert (now + multiset(chain))[y] == (content + multiset(chain'))[y];
      assert (multiset(chain') + multiset{x})[y] == multiset(chain)[y];
    }
  }

  lemma SameRest(a: multiset<Item>, b: multiset<Item>, x: Item)
    requires a + multiset{x} == b + multiset{x}
    ensures a == b
  {
    forall y ensures a[y] == b[y] {
      assert (a + multiset{x})[y] == (b + multiset{x})[y];
    }
  }

  lemma OutKeeps(s: seq<Item>, i: nat)
    requires i < |s|
    ensures forall x :: x in Without(s, i) ==> x in s
    ensures DistinctKeys(s) ==> DistinctKeys(Without(s, i)) && Absent(Without(s, i), s[i].key)
  {
    assert forall k :: 0 <= k < |s| - 1 ==> Without(s, i)[k] == s[if k < i then k else k + 1];
  }

  lemma DeleteKeeps(hash: Fn, h: Hash, key: Key)
    requires Inv(hash, h) && Find(hash, h, key).Just?
    ensures Inv(hash, Delete(hash, h, key))
    ensures var t := h.table;
            && Place(t.order, key) < |t.order|
            && if |t.order| == 1 then Delete(hash, h, key) == Null
               else Delete(hash, h, key).Hash? && Delete(hash, h, key).table.order == Without(t.order, Place(t.order, key))
  {
    var t := h.table;
    FindFinds(hash, t, key);
    var x := Find(hash, h, key).value;
    PlaceFinds(t.order, x);
    HomeHolds(hash, t, x);
    if |t.order| > 1 {
      DeleteOne(hash, t, x);
    }
  }

  lemma PlaceFinds(s: seq<Item>, x: Item)
    requires x in s
    ensures Place(s, x.key) < |s| && (DistinctKeys(s) ==> s[Place(s, x.key)] == x)
  {
    var i :| 0 <= i < |s| && s[i] == x;
  }

  lemma DeleteOne(hash: Fn, t: Table, x: Item)
    requires TableInv(hash, t) && x in t.order && |t.order| > 1
    ensures Find(hash, Hash(t), x.key).Just? && Delete(hash, Hash(t), x.key).Hash?
    ensures TableInv(hash, Delete(hash, Hash(t), x.key).table)
    ensures Place(t.order, x.key) < |t.order|
    ensures Delete(hash, Hash(t), x.key).table.order == Without(t.order, Place(t.order, x.key))
  {
    FindFinds(hash, t, x.key);
    PlaceFinds(t.order, x);
    HomeHolds(hash, t, x);
    var i, k := Home(hash, x.key, |t.buckets|), Place(t.order, x.key);
    var j := Place(t.buckets[i].chain, x.key);
    InChain(hash, t, i, j, x);
    Taken(hash, t, i, j, k, x);
    OutKeeps(t.order, k);
    hide And, Pow2, Content, CountSum, InPlace, Place;
  }

  lemma Taken(hash: Fn, t: Table, i: nat, j: nat, k: nat, x: Item)
    requires InPlace(hash, t.buckets, t.log2) && Content(t.buckets) == multiset(t.order) && i < |t.buckets|
    requires j < |t.buckets[i].chain| && t.buckets[i].chain[j] == x && k < |t.order| && t.order[k] == x
    ensures var now := t.buckets[i := Less(t.buckets[i], j)];
            && InPlace(hash, now, t.log2) && Content(now) == multiset(Without(t.order, k))
            && CountSum(now) == CountSum(t.buckets) - 1
  {
    hide And, Pow2, Content, CountSum, Place;
    var b := t.buckets[i];
    var b' := Less(b, j);
    OutKeeps(b.chain, j);
    InPlaceUpdate(hash, t.buckets, t.log2, i, b');
    ContentUpdate(t.buckets, i, b');
    CountUpdate(t.buckets, i, b');
    OutMultiset(b.chain, j);
    OutMultiset(t.order, k);
    OneLess(Content(t.buckets[i := b']), Content(t.buckets), b.chain, b'.chain, x);
    SameRest(Content(t.buckets[i := b']), multiset(Without(t.order, k)), x);
  }

  lemma InChain(hash: Fn, t: Table, i: nat, j: nat, x: Item)
    requires TableInv(hash, t) && x in t.order && i < |t.buckets| && i == Home(hash, x.key, |t.buckets|)
    requires j == Place(t.buckets[i].chain, x.key)
    ensures j < |t.buckets[i].chain| && t.buckets[i].chain[j] == x
  {
    FindFinds(hash, t, x.key);
  }

  // ----- a map -----

  /** The map the table stands for. */
  function Model(order: seq<Item>): map<Key, int>
  {
    if order == [] then map[] else Model(order[..|order| - 1])[order[|order| - 1].key := order[|order| - 1].value]
  }

  function ModelOf(h: Hash): map<Key, int> { if h.Null? then map[] else Model(h.table.order) }

  lemma {:induction false} ModelHas(order: seq<Item>)
    requires DistinctKeys(order)
    ensures forall x :: x in order ==> x.key in Model(order) && Model(order)[x.key] == x.value
    ensures forall k :: k in Model(order) ==> exists x :: x in order && x.key == k
    decreases |order|
  {
    if order != [] {
      var n := |order| - 1;
      ModelHas(order[..n]);
      assert order == order[..n] + [order[n]];
      forall k | k in Model(order) ensures exists x :: x in order && x.key == k {
        if k == order[n].key {
          assert order[n] in order;
        } else {
          assert k in Model(order[..n]);
          var x :| x in order[..n] && x.key == k;
          assert x in order;
        }
      }
    }
  }

  lemma {:induction false} ModelOut(order: seq<Item>, i: nat)
    requires DistinctKeys(order) && i < |order|
    ensures Model(Without(order, i)) == Model(order) - {order[i].key}
    decreases |order|
  {
    var n := |order| - 1;
    var x, k := order[n], order[i].key;
    ModelStep(order);
    hide Model;
    if i < n {
      var out := Without(order, i);
      OutLast(order, i);
      ModelOut(order[..n], i);
      ModelStep(out);
      Swapped(Model(order[..n]), k, x.key, x.value);
    } else {
      assert Without(order, i) == order[..n];
      ModelLacks(order[..n], k);
      Back(Model(order[..n]), k, x.value);
    }
  }

  lemma OutLast(order: seq<Item>, i: nat)
    requires i < |order| - 1
    ensures var n := |order| - 1; Without(order, i)[..n - 1] == Without(order[..n], i) && Without(order, i)[n - 1] == order[n]
  {
  }

  lemma ModelStep(order: seq<Item>)
    requires order != []
    ensures var n := |order| - 1; Model(order) == Model(order[..n])[order[n].key := order[n].value]
  {
  }

  lemma Swapped(m: map<Key, int>, k: Key, x: Key, v: int)
    requires k != x
    ensures (m - {k})[x := v] == m[x := v] - {k}
  {
  }

  lemma Back(m: map<Key, int>, k: Key, v: int)
    requires k !in m
    ensures m == m[k := v] - {k}
  {
  }

  lemma {:induction false} ModelLacks(order: seq<Item>, key: Key)
    requires forall x :: x in order ==> x.key != key
    ensures key !in Model(order)
    decreases |order|
  {
    if order != [] {
      var n := |order| - 1;
      assert order == order[..n] + [order[n]];
      ModelLacks(order[..n], key);
    }
  }

  lemma DeleteRefines(hash: Fn, h: Hash, key: Key)
    requires Inv(hash, h)
    ensures Inv(hash, Delete(hash, h, key)) && ModelOf(Delete(hash, h, key)) == ModelOf(h) - {key}
    ensures Delete(hash, h, key).Hash? ==> Absent(Delete(hash, h, key).table.order, key)
  {
    if h.Hash? {
      var t := h.table;
      FindFinds(hash, t, key);
      if Find(hash, h, key).Just? {
        DeleteKeeps(hash, h, key);
        ModelOut(t.order, Place(t.order, key));
        OutKeeps(t.order, Place(t.order, key));
        if |t.order| == 1 {
          OnlyOne(t.order, Place(t.order, key));
        }
      } else {
        ModelLacks(t.order, key);
        hide Model;
        assert Model(t.order) - {key} == Model(t.order);
      }
    }
  }

  lemma OnlyOne(order: seq<Item>, i: nat)
    requires |order| == 1 && i < 1
    ensures Model(Without(order, i)) == map[]
  {
  }

  lemma AddRefines(hash: Fn, h: Hash, item: Item)
    requires Inv(hash, h) && (h.Hash? ==> Absent(h.table.order, item.key))
    ensures Inv(hash, Add(hash, h, item)) && ModelOf(Add(hash, h, item)) == ModelOf(h)[item.key := item.value]
  {
    AddKeeps(hash, h, item);
    var order := if h.Null? then [] else h.table.order;
    assert Add(hash, h, item).table.order == order + [item];
    assert (order + [item])[..|order|] == order;
    ModelStep(order + [item]);
    assert Model([]) == map[];
  }

  datatype Op = Insert(item: Item) | Discard(key: Key)

  /** A key that is there is replaced (HASH_REPLACE), so keys stay distinct. */
  ghost function Do(hash: Fn, h: Hash, op: Op): (r: Hash)
    requires Inv(hash, h)
    ensures Inv(hash, r)
  {
    match op
    case Discard(key) =>
      DeleteRefines(hash, h, key);
      Delete(hash, h, key)
    case Insert(item) =>
      DeleteRefines(hash, h, item.key);
      AddRefines(hash, Delete(hash, h, item.key), item);
      Add(hash, Delete(hash, h, item.key), item)
  }

  function DoModel(m: map<Key, int>, op: Op): map<Key, int>
  {
    match op
    case Insert(item) => m[item.key := item.value]
    case Discard(key) => m - {key}
  }

  ghost function Run(hash: Fn, ops: seq<Op>): (r: Hash)
    ensures Inv(hash, r)
  {
    if ops == [] then Null else Do(hash, Run(hash, ops[..|ops| - 1]), ops[|ops| - 1])
  }

  function RunModel(ops: seq<Op>): map<Key, int>
  {
    if ops == [] then map[] else DoModel(RunModel(ops[..|ops| - 1]), ops[|ops| - 1])
  }

  /** Over every sequence of insertions and removals the table is the map. */
  lemma {:induction false} RunIsMap(hash: Fn, ops: seq<Op>)
    ensures ModelOf(Run(hash, ops)) == RunModel(ops)
    decreases |ops|
  {
    if ops != [] {
      var n := |ops| - 1;
      RunIsMap(hash, ops[..n]);
      var h := Run(hash, ops[..n]);
      match ops[n]
      case Discard(key) => DeleteRefines(hash, h, key);
      case Insert(item) =>
        DeleteRefines(hash, h, item.key);
        AddRefines(hash, Delete(hash, h, item.key), item);
        ReplacedKey(ModelOf(h), item.key, item.value);
    }
  }

  lemma ReplacedKey(m: map<Key, int>, key: Key, value: int)
    ensures (m - {key})[key := value] == m[key := value]
  {
  }

  /** And what Find finds is what the map has. */
  lemma FindIsLookup(hash: Fn, ops: seq<Op>, key: Key)
    ensures var h, m := Run(hash, ops), RunModel(ops);
            Find(hash, h, key) == if key in m then Just(Item(key, m[key])) else Nothing
  {
    RunIsMap(hash, ops);
    var h := Run(hash, ops);
    hide Run;
    if h.Hash? {
      FindFinds(hash, h.table, key);
      ModelHas(h.table.order);
      if Find(hash, h, key).Nothing? {
        ModelLacks(h.table.order, key);
      }
    }
  }

  /** In every run: items in their buckets, counts that sum up, chains and list of the same items, distinct keys. */
  lemma TableInEveryRun(hash: Fn, ops: seq<Op>)
    ensures var h := Run(hash, ops);
            h.Hash? ==>
              var t := h.table;
              && (forall i, x :: 0 <= i < |t.buckets| && x in t.buckets[i].chain ==> hash(x.key) % Pow2(t.log2) == i)
              && CountSum(t.buckets) == t.items == |t.order|
              && Content(t.buckets) == multiset(t.order) && DistinctKeys(t.order)
  {
    hide Run;
  }

  // ----- the statements of the macros -----

  /** The inner loop over one old chain. */
  method PourBucket(hash: Fn, ideal: nat, ghost log2: nat, wider: array<Bucket>, nonideal0: nat, chain: seq<Item>)
    returns (nonideal: nat)
    requires wider.Length == Pow2(log2) && ideal > 0
    modifies wider
    ensures Pouring(wider[..], nonideal)
         == PourChain(hash, ideal, log2, Pouring(old(wider[..]), nonideal0), chain)
  {
    hide And;
    nonideal := nonideal0;
    ghost var p := Pouring(wider[..], nonideal0);
    var j := 0;
    while j < |chain|
      invariant j <= |chain|
      invariant Pouring(wider[..], nonideal) == PourChain(hash, ideal, log2, p, chain[..j])
    {
      var item := chain[j];
      HomeInside(hash, item.key, log2);
      assert chain[..j + 1][..j] == chain[..j];
      var i := Home(hash, item.key, wider.Length);
      var b := wider[i].(count := wider[i].count + 1);
      if b.count > ideal {
        nonideal := nonideal + 1;
        b := b.(mult := b.count / ideal);
      }
      wider[i] := b.(chain := [item] + b.chain);
      j := j + 1;
    }
    assert chain[..|chain|] == chain;
  }

  /** HASH_FIND_IN_BKT */
  method FindInBucket(chain: seq<Item>, key: Key) returns (out: Maybe<Item>)
    ensures var i := Place(chain, key); out == if i < |chain| then Just(chain[i]) else Nothing
  {
    var i := 0;
    while i < |chain|
      invariant i <= |chain| && Place(chain, key) == i + Place(chain[i..], key)
    {
      if chain[i].key == key {
        return Just(chain[i]);
      }
      assert chain[i..][1..] == chain[i + 1..];
      i := i + 1;
    }
    return Nothing;
  }

  /** The first statements of HASH_ADD_TO_BKT */
  method AddToBucket(buckets: array<Bucket>, i: nat, item: Item)
    requires i < buckets.Length
    modifies buckets
    ensures buckets[..] == old(buckets[..])[i := Push(old(buckets[i]), item)]
  {
    var b := buckets[i];
    buckets[i] := Bucket([item] + b.chain, b.count + 1, b.mult);
  }

  /** HASH_DEL_IN_BKT */
  method DeleteInBucket(buckets: array<Bucket>, i: nat, key: Key)
    requires i < buckets.Length && Place(buckets[i].chain, key) < |buckets[i].chain|
    modifies buckets
    ensures var b := old(buckets[i]);
            buckets[..] == old(buckets[..])[i := Less(b, Place(b.chain, key))]
  {
    var b := buckets[i];
    var at := Place(b.chain, key);
    buckets[i] := Bucket(b.chain[..at] + b.chain[at + 1..], if b.count > 0 then b.count - 1 else 0, b.mult);
  }

  /** The head pointer with its table: no items, no table. */
  class Head {
    var order: seq<Item>
    var buckets: array<Bucket>
    var log2: nat
    var items: nat
    var ideal: nat
    var nonideal: nat
    var ineffective: nat
    var noexpand: bool

    ghost function AsTable(): Table
      reads this, buckets
    {
      Table(order, buckets[..], log2, items, ideal, nonideal, ineffective, noexpand)
    }

    ghost function AsHash(): Hash
      reads this, buckets
    {
      if order == [] then Null else Hash(AsTable())
    }

    constructor ()
      ensures AsHash() == Null && fresh(buckets)
    {
      order := [];
      buckets := new Bucket[0];
    }

    /** HASH_FIND_BYHASHVALUE */
    method Lookup(hash: Fn, key: Key) returns (out: Maybe<Item>)
      requires Inv(hash, AsHash())
      ensures out == Find(hash, AsHash(), key)
    {
      hide Content, CountSum;
      if order == [] {
        return Nothing;
      }
      HomeInside(hash, key, log2);
      out := FindInBucket(buckets[Home(hash, key, buckets.Length)].chain, key);
    }

    /** HASH_MAKE_TABLE */
    method MakeTable(item: Item)
      modifies this
      ensures fresh(buckets) && AsTable() == NewTable(item)
    {
      order, log2, items := [item], INITIAL_LOG2, 0;
      ideal, nonideal, ineffective, noexpand := 0, 0, 0, false;
      buckets := new Bucket[32](_ => Bucket([], 0, 0));
      ThirtyTwo();
      assert buckets[..] == EmptyBuckets(32);
    }

    /** HASH_ADD_KEYPTR_BYHASHVALUE */
    method AddItem(hash: Fn, item: Item)
      requires Inv(hash, AsHash()) && (order != [] ==> Absent(order, item.key))
      modifies this, buckets
      ensures buckets == old(buckets) || fresh(buckets)
      ensures AsHash() == Add(hash, old(AsHash()), item) && Inv(hash, AsHash())
      ensures ModelOf(AsHash()) == ModelOf(old(AsHash()))[item.key := item.value]
    {
      AddRefines(hash, AsHash(), item);
      hide Content, CountSum, Model, Expand;
      if order == [] {
        MakeTable(item);
      } else {
        order := order + [item];
      }
      ghost var t := AsTable();
      items := items + 1;
      HomeInside(hash, item.key, log2);
      var i := Home(hash, item.key, buckets.Length);
      AddToBucket(buckets, i, item);
      hide And, Home;
      assert AsTable() == t.(items := t.items + 1, buckets := t.buckets[i := Push(t.buckets[i], item)]);
      if buckets[i].count >= (buckets[i].mult + 1) * CAPACITY_THRESH && !noexpand {
        ExpandBuckets(hash);
      }
    }

    /** HASH_EXPAND_BUCKETS: the chains of the old buckets are poured, item by item, into twice as many. */
    method ExpandBuckets(hash: Fn)
      requires buckets.Length == Pow2(log2) && items > 0
      modifies this
      ensures fresh(buckets) && AsTable() == Expand(hash, old(AsTable()))
    {
      IdealPositive(items, log2);
      hide Pour, And;
      ghost var t := AsTable();
      ideal := Quotient(items, 2 * buckets.Length) + (if And(items, 2 * buckets.Length - 1) != 0 then 1 else 0);
      nonideal := 0;
      var wider := new Bucket[2 * buckets.Length](_ => Bucket([], 0, 0));
      ghost var p0 := Pouring(EmptyBuckets(wider.Length), 0);
      assert wider[..] == p0.buckets;
      for i := 0 to buckets.Length
        invariant buckets == old(buckets) && log2 == t.log2 && items == t.items && order == t.order
        invariant ideal == IdealLength(t.items, t.log2) && ineffective == t.ineffective && noexpand == t.noexpand
        invariant buckets[..] == t.buckets && wider.Length == Pow2(t.log2 + 1)
        invariant Pouring(wider[..], nonideal) == PourAll(hash, ideal, t.log2 + 1, p0, t.buckets[..i])
      {
        assert t.buckets[..i + 1][..i] == t.buckets[..i];
        nonideal := PourBucket(hash, ideal, t.log2 + 1, wider, nonideal, buckets[i].chain);
      }
      assert t.buckets[..|t.buckets|] == t.buckets;
      log2 := log2 + 1;
      buckets := wider;
      ineffective := if nonideal > items / 2 then ineffective + 1 else 0;
      if ineffective > 1 {
        noexpand := true;
      }
    }

    /** HASH_DELETE of the item that Lookup finds */
    method DeleteItem(hash: Fn, key: Key)
      requires Inv(hash, AsHash())
      modifies this, buckets
      ensures buckets == old(buckets)
      ensures AsHash() == Delete(hash, old(AsHash()), key) && Inv(hash, AsHash())
      ensures ModelOf(AsHash()) == ModelOf(old(AsHash())) - {key}
    {
      DeleteRefines(hash, AsHash(), key);
      assert order != [] ==> buckets.Length == Pow2(log2);
      hide Content, CountSum, Model, TableInv, ModelOf, And;
      var found := Lookup(hash, key);
      if found.Nothing? {
        return;
      }
      if |order| <= 1 {
        order := [];
        return;
      }
      Unlink(hash, key);
    }

    method Unlink(hash: Fn, key: Key)
      requires |order| > 1 && buckets.Length == Pow2(log2) && Find(hash, AsHash(), key).Just?
      modifies this, buckets
      ensures buckets == old(buckets) && order != []
      ensures AsTable() == Remove(hash, old(AsTable()), key)
    {
      hide And, Pow2;
      ghost var t := AsTable();
      var k := Place(order, key);
      if k < |order| {
        order := order[..k] + order[k + 1..];
      }
      HomeInside(hash, key, log2);
      DeleteInBucket(buckets, Home(hash, key, buckets.Length), key);
      items := if items > 0 then items - 1 else 0;
    }
  }

  lemma ThirtyTwo()
    ensures Pow2(INITIAL_LOG2) == 32
  {
    assert Pow2(4) == 16;
  }
}
