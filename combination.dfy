/**
 * Outbound combinations (struct ObInfo): a total quantity together with the
 * packages taken from each batch, in the order the batches were processed.
 */
module Combination {
  import opened Inventory

  /** `count` packages taken from the batch at position `batch`. */
  datatype Pick = Pick(batch: nat, count: nat)

  /** A combination: the total it reaches and the picks that reach it. */
  datatype ObInfo = ObInfo(wareNum: nat, info: seq<Pick>)

  /** The default-constructed combination: nothing taken, total zero. */
  const Empty := ObInfo(0, [])

  /** Every pick names a batch of the inventory. */
  predicate Refers(inv: seq<Batch>, info: seq<Pick>)
  {
    forall k :: 0 <= k < |info| ==> info[k].batch < |inv|
  }

  /** The quantity the picks take out of the inventory, batch by batch. */
  function Total(inv: seq<Batch>, info: seq<Pick>): nat
    requires Refers(inv, info)
  {
    if info == [] then 0
    else
      var p := info[|info| - 1];
      Total(inv, info[..|info| - 1]) + inv[p.batch].packageSize * p.count
  }

  /** The combination's recorded total is what its picks really take. */
  predicate Consistent(inv: seq<Batch>, o: ObInfo)
  {
    Refers(inv, o.info) && o.wareNum == Total(inv, o.info)
  }

  /** ObInfo(batch, n): `count` packages of one batch and nothing else. */
  function Single(inv: seq<Batch>, id: nat, count: nat): (r: ObInfo)
    requires id < |inv|
    ensures r.info == [Pick(id, count)]
    ensures Consistent(inv, r)
  {
    var r := ObInfo(inv[id].packageSize * count, [Pick(id, count)]);
    assert r.info[..0] == [];
    r
  }

  /** ObInfo(base, add): `base` followed by the first pick of `add`. */
  function Extend(base: ObInfo, add: ObInfo): ObInfo
    requires |add.info| > 0
  {
    ObInfo(base.wareNum + add.wareNum, base.info + [add.info[0]])
  }

  /** Extending a consistent combination by a consistent one-pick combination
      keeps the old picks, appends the new one, and stays consistent. */
  lemma ExtendConsistent(inv: seq<Batch>, base: ObInfo, add: ObInfo)
    requires Consistent(inv, base) && Consistent(inv, add) && |add.info| == 1
    ensures Extend(base, add).info[..|base.info|] == base.info
    ensures Extend(base, add).info[|base.info|] == add.info[0]
    ensures Consistent(inv, Extend(base, add))
  {
    var e := Extend(base, add);
    var p := add.info[0];
    assert e.info[..|e.info| - 1] == base.info;
    assert add.info[..0] == [];
    assert Total(inv, add.info) == Total(inv, add.info[..0]) + inv[p.batch].packageSize * p.count;
    assert add.wareNum == inv[p.batch].packageSize * p.count;
    assert Total(inv, e.info) == Total(inv, base.info) + inv[p.batch].packageSize * p.count;
  }

  /** operator< : ordered by total alone. */
  predicate Less(a: ObInfo, b: ObInfo)
  {
    a.wareNum < b.wareNum
  }

  /** operator> : the comparator of the frontier, the converse of Less. */
  predicate Greater(a: ObInfo, b: ObInfo)
    ensures Greater(a, b) <==> Less(b, a)
  {
    a.wareNum > b.wareNum
  }

  /** operator== : equal totals; exactly the combinations the frontier's
      comparator cannot tell apart, whatever their picks. */
  predicate Same(a: ObInfo, b: ObInfo)
    ensures Same(a, b) <==> !Greater(a, b) && !Greater(b, a)
  {
    a.wareNum == b.wareNum
  }
}
