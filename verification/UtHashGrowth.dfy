/** When the hash table doubles its buckets, and when it stops doing so (uthash.h). */
module UtHashGrowth {
  import opened Bytes
  import opened UtHash

  // ----- one expansion -----

  /** Beyond the ideal length, a bucket takes as many more items as it exceeds it by. */
  ghost predicate Weighed(buckets: seq<Bucket>, ideal: nat)
    requires ideal > 0
  {
    forall i :: 0 <= i < |buckets| ==>
                  buckets[i].mult == if buckets[i].count > ideal then buckets[i].count / ideal else 0
  }

  lemma PourWeighs(hash: Fn, ideal: nat, p: Pouring, item: Item)
    requires ideal > 0 && p.buckets != [] && Home(hash, item.key, |p.buckets|) < |p.buckets| && Weighed(p.buckets, ideal)
    ensures Weighed(Pour(hash, ideal, p, item).buckets, ideal)
  {
    hide Home;
  }

  lemma {:induction false} PourChainWeighs(hash: Fn, ideal: nat, log2: nat, p: Pouring, chain: seq<Item>)
    requires |p.buckets| == Pow2(log2) && ideal > 0 && Weighed(p.buckets, ideal)
    ensures Weighed(PourChain(hash, ideal, log2, p, chain).buckets, ideal)
    decreases |chain|
  {
    hide Weighed, Pour;
    if chain != [] {
      var n := |chain| - 1;
      PourChainWeighs(hash, ideal, log2, p, chain[..n]);
      HomeInside(hash, chain[n].key, log2);
      PourWeighs(hash, ideal, PourChain(hash, ideal, log2, p, chain[..n]), chain[n]);
    }
  }

  lemma {:induction false} PourAllWeighs(hash: Fn, ideal: nat, log2: nat, p: Pouring, buckets: seq<Bucket>)
    requires |p.buckets| == Pow2(log2) && ideal > 0 && Weighed(p.buckets, ideal)
    ensures Weighed(PourAll(hash, ideal, log2, p, buckets).buckets, ideal)
    decreases |buckets|
  {
    hide Weighed, PourChain;
    if buckets != [] {
      var n := |buckets| - 1;
      PourAllWeighs(hash, ideal, log2, p, buckets[..n]);
      PourChainWeighs(hash, ideal, log2, PourAll(hash, ideal, log2, p, buckets[..n]), buckets[n].chain);
    }
  }

  /**
   * After doubling, each bucket's multiplier is what its length comes to in ideal
   * lengths; and the expansion counts as ineffective exactly if more than half of
   * the items lie beyond the ideal length.
   */
  lemma ExpandWeighs(hash: Fn, t: Table)
    requires t.items > 0
    ensures var e := Expand(hash, t);
            && e.ideal > 0 && Weighed(e.buckets, e.ideal)
            && e.ineffective == (if 2 * e.nonideal > t.items then t.ineffective + 1 else 0)
            && (e.noexpand <==> t.noexpand || e.ineffective > 1)
  {
    IdealPositive(t.items, t.log2);
    var ideal, log2 := IdealLength(t.items, t.log2), t.log2 + 1;
    PourAllWeighs(hash, ideal, log2, Pouring(EmptyBuckets(Pow2(log2)), 0), t.buckets);
    hide PourAll, IdealLength;
  }

  // ----- whole runs -----

  /** Expansion is switched off by the second ineffective one in a row, and then for good. */
  ghost predicate Grows(h: Hash)
  {
    h.Hash? ==> h.table.ineffective <= 2 && (h.table.noexpand <==> h.table.ineffective == 2)
  }

  /** Adding an item doubles the buckets exactly if its bucket has become ten times its multiplier and one too long. */
  lemma AddGrows(hash: Fn, t: Table, item: Item)
    requires |t.buckets| == Pow2(t.log2) && Grows(Hash(t))
    ensures Home(hash, item.key, |t.buckets|) < |t.buckets|
    ensures var b, t' := t.buckets[Home(hash, item.key, |t.buckets|)], AddToTable(hash, t, item);
            && t'.log2 == t.log2 + (if b.count + 1 >= 10 * (b.mult + 1) && t.ineffective < 2 then 1 else 0)
            && Grows(Hash(t'))
  {
    HomeInside(hash, item.key, t.log2);
    var i := Home(hash, item.key, |t.buckets|);
    ExpandWeighs(hash, t.(items := t.items + 1, buckets := t.buckets[i := Push(t.buckets[i], item)]));
    hide Home, PourAll, IdealLength, Weighed;
  }

  lemma RemoveGrows(hash: Fn, h: Hash, key: Key)
    requires h.Hash? ==> |h.table.buckets| == Pow2(h.table.log2)
    requires Grows(h)
    ensures Grows(Delete(hash, h, key))
  {
    hide And, Pow2;
  }

  /** In every run the table grows as long as no two expansions in a row were ineffective, and never after that. */
  lemma {:induction false} GrowthInEveryRun(hash: Fn, ops: seq<Op>)
    ensures Grows(Run(hash, ops))
    decreases |ops|
  {
    if ops != [] {
      var n := |ops| - 1;
      GrowthInEveryRun(hash, ops[..n]);
      var h := Run(hash, ops[..n]);
      BucketsOf(hash, h);
      match ops[n]
      case Discard(key) => RemoveGrows(hash, h, key);
      case Insert(item) =>
        RemoveGrows(hash, h, item.key);
        DeleteRefines(hash, h, item.key);
        AddedGrows(hash, Delete(hash, h, item.key), item);
    }
  }

  lemma BucketsOf(hash: Fn, h: Hash)
    requires Inv(hash, h)
    ensures h.Hash? ==> |h.table.buckets| == Pow2(h.table.log2)
  {
  }

  lemma AddedGrows(hash: Fn, h: Hash, item: Item)
    requires Inv(hash, h) && Grows(h)
    ensures Grows(Add(hash, h, item))
  {
    BucketsOf(hash, h);
    if h.Null? {
      AddGrows(hash, NewTable(item), item);
    } else {
      AddGrows(hash, h.table.(order := h.table.order + [item]), item);
    }
    hide AddToTable, Pow2, Home;
  }
}
