/**
 * Inventory batches: one stock lot of a ware, held as `packageNum` packages
 * of `packageSize` units each (struct InvBatch).
 */
module Inventory {

  /** One batch; `no` is its position in the inventory once numbered. */
  datatype Batch = Batch(no: nat, packageSize: nat, packageNum: nat)

  /** Every batch has a non-empty package; the search divides by the size. */
  predicate PositiveSizes(inv: seq<Batch>)
  {
    forall i :: 0 <= i < |inv| ==> inv[i].packageSize > 0
  }

  /** A positive multiple of `s` is at least `s`. */
  lemma {:induction false} MulAtLeast(s: nat, k: nat)
    requires k >= 1
    ensures s * k >= s
  {
    if k > 1 {
      MulAtLeast(s, k - 1);
      assert s * k == s * (k - 1) + s;
    }
  }

  /** `(s * n) / s == n`: dividing a product by one factor gives back the other. */
  lemma DivMulExact(s: nat, n: nat)
    requires s > 0
    ensures (s * n) / s == n && (s * n) % s == 0
  {
    var q, r := (s * n) / s, (s * n) % s;
    assert s * n == s * q + r && 0 <= r < s;
    if q < n {
      assert s * n == s * q + s * (n - q);
      MulAtLeast(s, n - q);
    } else if q > n {
      assert s * q == s * n + s * (q - n);
      MulAtLeast(s, q - n);
    }
  }

  /** Multiplying by the same factor keeps the order. */
  lemma MulMonotone(a: nat, b: nat, s: nat)
    requires a <= b
    ensures a * s <= b * s
  {
    assert b * s == a * s + (b - a) * s;
  }

  /** A positive factor can be cancelled from both sides of `<=`. */
  lemma MulCancel(a: nat, b: nat, s: nat)
    requires s > 0 && a * s <= b * s
    ensures a <= b
  {
    if a > b {
      assert a * s == b * s + (a - b) * s;
      MulAtLeast(s, a - b);
    }
  }

  /** The quantity held by the whole batch (GetWareNum). */
  function WareNum(b: Batch): nat
  {
    b.packageSize * b.packageNum
  }

  /** The batch quantity is a whole number of packages: the package size
      recovers the package count from it exactly. */
  lemma WareNumPackages(b: Batch)
    requires b.packageSize > 0
    ensures WareNum(b) / b.packageSize == b.packageNum && WareNum(b) % b.packageSize == 0
  {
    DivMulExact(b.packageSize, b.packageNum);
  }

  /** Sum of the batch quantities of the whole inventory. */
  function InvTotal(inv: seq<Batch>): nat
  {
    if inv == [] then 0 else InvTotal(inv[..|inv| - 1]) + WareNum(inv[|inv| - 1])
  }

  /** Every batch of a prefix of the inventory is in the prefix's total. */
  lemma {:induction false} InvTotalMonotone(inv: seq<Batch>, i: nat, j: nat)
    requires i <= j <= |inv|
    ensures InvTotal(inv[..i]) <= InvTotal(inv[..j])
    decreases j - i
  {
    if i < j {
      InvTotalMonotone(inv, i, j - 1);
      assert inv[..j][..j - 1] == inv[..j - 1];
    }
  }

  /** True when batch `i` carries number `i`. */
  predicate Numbered(inv: seq<Batch>)
  {
    forall i :: 0 <= i < |inv| ==> inv[i].no == i
  }

  /**
   * MakeNo: numbers the batches in place by their position, leaving sizes
   * and counts untouched.
   */
  method MakeNo(batches: array<Batch>)
    modifies batches
    ensures Numbered(batches[..])
    ensures forall i :: 0 <= i < batches.Length ==> batches[i] == old(batches[i]).(no := i)
  {
    var globalNo := 0;
    while globalNo < batches.Length
      invariant 0 <= globalNo <= batches.Length
      invariant forall i :: 0 <= i < globalNo ==> batches[i] == old(batches[i]).(no := i)
      invariant forall i :: globalNo <= i < batches.Length ==> batches[i] == old(batches[i])
    {
      batches[globalNo] := batches[globalNo].(no := globalNo);
      globalNo := globalNo + 1;
    }
  }
}
