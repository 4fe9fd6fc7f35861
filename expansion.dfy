/**
 * One batch step of the search: the range of package counts tried for the
 * batch, the candidate combinations built from it, and the descending scan
 * of the frontier that extends each member by each candidate.
 */
module Expansion {
  import opened Inventory
  import opened Combination
  import opened Frontier

  function Min(a: nat, b: nat): nat
  {
    if a <= b then a else b
  }

  function Max(a: nat, b: nat): nat
  {
    if a <= b then b else a
  }

  /** ceil(a / d), in integers. */
  function CeilDiv(a: nat, d: nat): nat
    requires d > 0
  {
    (a + d - 1) / d
  }

  /** CeilDiv gives the fewest packages of size `d` that reach `a`. */
  lemma CeilDivCovers(a: nat, d: nat)
    requires d > 0
    ensures a <= CeilDiv(a, d) * d
    ensures CeilDiv(a, d) == 0 || (CeilDiv(a, d) - 1) * d < a
  {
    var q := CeilDiv(a, d);
    assert a + d - 1 == d * q + (a + d - 1) % d;
    assert q == 0 || (q - 1) * d == d * q - d;
  }

  /** Inclusive range of package counts tried for one batch. */
  datatype Range = Range(begin: nat, end: nat)

  /**
   * The package counts tried for batch `b` when the frontier's largest total
   * is `curMax`: up to the fewest packages that cover the order, capped by
   * the stock; from one, unless the batch alone exceeds the window and even
   * all of it on top of `curMax` stays below the order.
   */
  function CandidateRange(b: Batch, curMax: nat, order: nat, window: nat): (r: Range)
    requires b.packageSize > 0
    ensures 1 <= r.begin && r.end <= b.packageNum
  {
    var size := b.packageSize;
    var packageCoverObNum := CeilDiv(order, size);
    var end := Min(packageCoverObNum, b.packageNum);
    var begin :=
      if WareNum(b) > window && curMax + WareNum(b) < order
      then Max((WareNum(b) - window) / size, 1)
      else 1;
    Range(begin, end)
  }

  /**
   * The range ends at the stock count or at the first count that covers the
   * order; it starts above 1 only when the batch exceeds the window and all
   * of it on top of `curMax` stays below the order, and then it starts at
   * `(WareNum(b) - window) / size` and runs to the whole batch. With a
   * non-empty batch and a positive order the range is not empty.
   */
  lemma CandidateRangeFacts(b: Batch, curMax: nat, order: nat, window: nat)
    requires b.packageSize > 0
    ensures var r := CandidateRange(b, curMax, order, window);
            && (r.end == b.packageNum || order <= r.end * b.packageSize)
            && (r.end == 0 || (r.end - 1) * b.packageSize < order)
            && (r.begin > 1 ==> WareNum(b) > window && curMax + WareNum(b) < order)
            && (r.begin > 1 ==> r.begin == (WareNum(b) - window) / b.packageSize)
            && (r.begin > 1 ==> r.end == b.packageNum)
            && (WareNum(b) > window && curMax + WareNum(b) < order
                ==> r.begin == Max((WareNum(b) - window) / b.packageSize, 1))
            && (!(WareNum(b) > window && curMax + WareNum(b) < order) ==> r.begin == 1)
            && (0 < b.packageNum && 0 < order ==> r.begin <= r.end)
  {
    var size := b.packageSize;
    var cover := CeilDiv(order, size);
    CeilDivCovers(order, size);
    var r := CandidateRange(b, curMax, order, window);
    if r.end > 0 {
      MulMonotone(r.end - 1, cover - 1, size);
    }
    if r.begin > 1 {
      WareNumPackages(b);
      if cover <= b.packageNum {
        MulMonotone(cover, b.packageNum, size);
      }
      var x := WareNum(b) - window;
      assert size * (x / size) + x % size == x;
      MulCancel(r.begin, b.packageNum, size);
    } else if 0 < b.packageNum && 0 < order {
      assert cover > 0;
    }
  }

  /** ObInfo(&batch, n) for n = begin .. end, in that order. */
  function Candidates(inv: seq<Batch>, id: nat, begin: nat, end: nat): (r: seq<ObInfo>)
    requires id < |inv|
    ensures |r| == if begin <= end then end - begin + 1 else 0
    ensures forall k :: 0 <= k < |r| ==> r[k].info == [Pick(id, begin + k)] && Consistent(inv, r[k])
    decreases end + 1 - begin
  {
    if begin > end then [] else [Single(inv, id, begin)] + Candidates(inv, id, begin + 1, end)
  }

  /** The loop that fills `batch_ob_infos`, one combination per package count. */
  method BatchObInfos(inv: seq<Batch>, id: nat, begin: nat, end: nat) returns (batchObInfos: seq<ObInfo>)
    requires id < |inv|
    ensures batchObInfos == Candidates(inv, id, begin, end)
  {
    batchObInfos := [];
    var curBatchPackageNum := begin;
    while curBatchPackageNum <= end
      invariant begin <= curBatchPackageNum
      invariant batchObInfos + Candidates(inv, id, curBatchPackageNum, end) == Candidates(inv, id, begin, end)
      decreases end + 1 - curBatchPackageNum
    {
      ghost var rest := Candidates(inv, id, curBatchPackageNum + 1, end);
      assert Candidates(inv, id, curBatchPackageNum, end) == [Single(inv, id, curBatchPackageNum)] + rest;
      batchObInfos := batchObInfos + [Single(inv, id, curBatchPackageNum)];
      curBatchPackageNum := curBatchPackageNum + 1;
    }
    assert batchObInfos + [] == batchObInfos;
  }

  /** What one batch's scan ends in: an exact hit, or the grown frontier. */
  datatype ScanResult =
    | Hit(goal: ObInfo, coreCnt: nat)
    | Done(frontier: seq<ObInfo>, coreCnt: nat)

  /** Every candidate has a first pick to append. */
  predicate Picked(cands: seq<ObInfo>)
  {
    forall k :: 0 <= k < |cands| ==> |cands[k].info| > 0
  }

  /**
   * The inner loop over the candidates for frontier member `m`: stops at the
   * first candidate that completes the order; otherwise inserts each
   * extension into `f` and counts the attempt.
   */
  function ExtendAll(m: ObInfo, cands: seq<ObInfo>, f: seq<ObInfo>, order: nat, coreCnt: nat): (r: ScanResult)
    requires Picked(cands)
    ensures r.Hit? ==> r.goal.wareNum == order
    ensures coreCnt <= r.coreCnt <= coreCnt + |cands|
    ensures r.Done? ==> r.coreCnt == coreCnt + |cands|
    decreases |cands|
  {
    if cands == [] then Done(f, coreCnt)
    else if m.wareNum + cands[0].wareNum == order then Hit(Extend(m, cands[0]), coreCnt)
    else ExtendAll(m, cands[1..], Insert(f, Extend(m, cands[0])), order, coreCnt + 1)
  }

  /**
   * The scan over the members that were in the frontier when the batch
   * started, largest first: it stops at a member above the order, or at one
   * more than `window` below `intervalEnd`; otherwise the member is extended
   * by every candidate.
   */
  function Scan(rest: seq<ObInfo>, f: seq<ObInfo>, cands: seq<ObInfo>, order: nat,
                intervalEnd: nat, window: nat, coreCnt: nat): (r: ScanResult)
    requires Picked(cands)
    ensures r.Hit? ==> r.goal.wareNum == order
    ensures r.coreCnt >= coreCnt
    decreases |rest|
  {
    if rest == [] then Done(f, coreCnt)
    else
      var m := rest[0];
      if m.wareNum > order then Done(f, coreCnt)
      else if intervalEnd >= m.wareNum && intervalEnd - m.wareNum > window then Done(f, coreCnt)
      else
        match ExtendAll(m, cands, f, order, coreCnt)
        case Hit(g, c) => Hit(g, c)
        case Done(g, c) => Scan(rest[1..], g, cands, order, intervalEnd, window, c)
  }

  /** The inner loop never shrinks the frontier. */
  lemma {:induction false} ExtendAllGrows(m: ObInfo, cands: seq<ObInfo>, f: seq<ObInfo>, order: nat, coreCnt: nat)
    requires Picked(cands)
    ensures var r := ExtendAll(m, cands, f, order, coreCnt); r.Done? ==> |f| <= |r.frontier|
    decreases |cands|
  {
    if cands != [] && m.wareNum + cands[0].wareNum != order {
      InsertGrows(f, Extend(m, cands[0]));
      ExtendAllGrows(m, cands[1..], Insert(f, Extend(m, cands[0])), order, coreCnt + 1);
    }
  }

  /** A batch's scan never shrinks the frontier. */
  lemma {:induction false} ScanGrows(rest: seq<ObInfo>, f: seq<ObInfo>, cands: seq<ObInfo>, order: nat,
                                     intervalEnd: nat, window: nat, coreCnt: nat)
    requires Picked(cands)
    ensures var r := Scan(rest, f, cands, order, intervalEnd, window, coreCnt); r.Done? ==> |f| <= |r.frontier|
    decreases |rest|
  {
    if rest != [] {
      ExtendAllGrows(rest[0], cands, f, order, coreCnt);
      var e := ExtendAll(rest[0], cands, f, order, coreCnt);
      if e.Done? {
        ScanGrows(rest[1..], e.frontier, cands, order, intervalEnd, window, e.coreCnt);
      }
    }
  }

  /** An insertion above the member the iterator stands on, `n` from the end,
      keeps the frontier in order and the members from the iterator on. */
  lemma InsertAbove(f: seq<ObInfo>, x: ObInfo, orig: seq<ObInfo>, n: nat)
    requires StrictlyDescending(f) && 0 < n <= |f| && n <= |orig|
    requires f[|f| - n..] == orig[|orig| - n..]
    requires x.wareNum > orig[|orig| - n].wareNum
    ensures StrictlyDescending(Insert(f, x))
    ensures n <= |Insert(f, x)| && Insert(f, x)[|Insert(f, x)| - n..] == orig[|orig| - n..]
  {
    assert f[|f| - n] == orig[|orig| - n] by {
      assert f[|f| - n..][0] == f[|f| - n];
      assert orig[|orig| - n..][0] == orig[|orig| - n];
    }
    InsertKeepsSuffix(f, x, n);
    InsertOrdered(f, x);
  }

  /**
   * The inner loop of the scan (over `batch_ob_infos`) for the member
   * `obInfo` that the iterator stands on, `n` members from the end of the
   * frontier: each insertion lands above `obInfo`, so the last `n` members
   * stay where they were.
   */
  method ExtendMember(obInfo: ObInfo, batchObInfos: seq<ObInfo>, obInfos: seq<ObInfo>, order: nat,
                      coreCnt: nat, ghost n: nat) returns (r: ScanResult)
    requires StrictlyDescending(obInfos) && Picked(batchObInfos)
    requires forall k :: 0 <= k < |batchObInfos| ==> batchObInfos[k].wareNum > 0
    requires 0 < n <= |obInfos| && obInfos[|obInfos| - n] == obInfo
    ensures r == ExtendAll(obInfo, batchObInfos, obInfos, order, coreCnt)
    ensures r.Done? ==> StrictlyDescending(r.frontier) && n <= |r.frontier|
    ensures r.Done? ==> r.frontier[|r.frontier| - n..] == obInfos[|obInfos| - n..]
  {
    var f := obInfos;
    var cnt := coreCnt;
    var j := 0;
    while j < |batchObInfos|
      invariant j <= |batchObInfos|
      invariant n <= |f| && f[|f| - n..] == obInfos[|obInfos| - n..]
      invariant StrictlyDescending(f)
      invariant ExtendAll(obInfo, batchObInfos, obInfos, order, coreCnt)
             == ExtendAll(obInfo, batchObInfos[j..], f, order, cnt)
    {
      var batchObInfo := batchObInfos[j];
      assert batchObInfos[j..][0] == batchObInfo && batchObInfos[j..][1..] == batchObInfos[j + 1..];
      if obInfo.wareNum + batchObInfo.wareNum == order {
        return Hit(Extend(obInfo, batchObInfo), cnt);
      }
      var x := Extend(obInfo, batchObInfo);
      InsertAbove(f, x, obInfos, n);
      f := Insert(f, x);
      cnt := cnt + 1;
      j := j + 1;
    }
    r := Done(f, cnt);
  }

  /**
   * The scan over the live frontier (the `for` over `ob_infos`): the
   * iterator stands at distance `n - visited` from the end of the frontier.
   * Every insertion is strictly above the member being extended, so the part
   * of the frontier from the iterator on stays the part of the original
   * frontier not yet visited, and the scan expands exactly the members
   * present when the batch started, in descending order.
   */
  method ExpandBatch(obInfos: seq<ObInfo>, batchObInfos: seq<ObInfo>, order: nat, window: nat,
                     curMax: nat, coreCnt: nat) returns (r: ScanResult)
    requires StrictlyDescending(obInfos) && Picked(batchObInfos)
    requires forall k :: 0 <= k < |batchObInfos| ==> batchObInfos[k].wareNum > 0
    ensures r == Scan(obInfos, obInfos, batchObInfos, order, Min(curMax, order), window, coreCnt)
  {
    var f := obInfos;
    var cnt := coreCnt;
    var intervalEnd := Min(curMax, order);
    var n := |obInfos|;
    var visited := 0;
    while visited < n
      invariant visited <= n && n - visited <= |f|
      invariant f[|f| - (n - visited)..] == obInfos[visited..]
      invariant StrictlyDescending(f)
      invariant Scan(obInfos, obInfos, batchObInfos, order, intervalEnd, window, coreCnt)
             == Scan(obInfos[visited..], f, batchObInfos, order, intervalEnd, window, cnt)
    {
      var obInfo := f[|f| - (n - visited)];
      assert obInfo == obInfos[visited..][0] by {
        assert f[|f| - (n - visited)..][0] == obInfo;
      }
      if obInfo.wareNum > order {
        break;
      }
      if intervalEnd >= obInfo.wareNum && intervalEnd - obInfo.wareNum > window {
        break;
      }
      var e := ExtendMember(obInfo, batchObInfos, f, order, cnt, n - visited);
      if e.Hit? {
        return e;
      }
      assert obInfos[visited..][1..] == obInfos[visited + 1..];
      f, cnt := e.frontier, e.coreCnt;
      assert f[|f| - (n - visited)..][1..] == f[|f| - (n - (visited + 1))..];
      visited := visited + 1;
    }
    r := Done(f, cnt);
  }
}
