/**
 * What every combination the search builds satisfies: its picks come from
 * distinct batches already processed, in batch order, each taking between
 * one package and the whole batch, and its total is what the picks take.
 */
module Soundness {
  import opened Inventory
  import opened Combination
  import opened Frontier
  import opened Expansion

  /** Picks from batches before `i`, in strictly increasing batch order (so
      no batch twice), each of one package up to the whole batch. */
  predicate ValidPicks(inv: seq<Batch>, i: nat, info: seq<Pick>)
  {
    && i <= |inv|
    && (forall k :: 0 <= k < |info| ==>
          info[k].batch < i && 1 <= info[k].count <= inv[info[k].batch].packageNum)
    && (forall k, l :: 0 <= k < l < |info| ==> info[k].batch < info[l].batch)
  }

  /** A combination the search can hold after the first `i` batches: valid
      picks, a true total, and not the order itself (that would have ended
      the search). */
  predicate Reached(inv: seq<Batch>, i: nat, m: ObInfo, order: nat)
  {
    ValidPicks(inv, i, m.info) && Consistent(inv, m) && m.wareNum != order
  }

  predicate AllReached(inv: seq<Batch>, i: nat, f: seq<ObInfo>, order: nat)
  {
    forall m :: m in f ==> Reached(inv, i, m, order)
  }

  /** A candidate of batch `i`: one pick of that batch, of one package up to
      the whole batch. */
  predicate Candidate(inv: seq<Batch>, i: nat, c: ObInfo)
  {
    && i < |inv|
    && |c.info| == 1
    && c.info[0].batch == i
    && 1 <= c.info[0].count <= inv[i].packageNum
    && Consistent(inv, c)
  }

  predicate BatchCandidates(inv: seq<Batch>, i: nat, cands: seq<ObInfo>)
  {
    i < |inv| && forall k :: 0 <= k < |cands| ==> Candidate(inv, i, cands[k])
  }

  /** The counts of a candidate range are candidates of the batch, each with a
      positive total. */
  lemma CandidatesOfBatch(inv: seq<Batch>, i: nat, begin: nat, end: nat)
    requires PositiveSizes(inv) && i < |inv|
    requires 1 <= begin && end <= inv[i].packageNum
    ensures BatchCandidates(inv, i, Candidates(inv, i, begin, end))
    ensures forall k :: 0 <= k < |Candidates(inv, i, begin, end)| ==> Candidates(inv, i, begin, end)[k].wareNum > 0
  {
    var cands := Candidates(inv, i, begin, end);
    forall k | 0 <= k < |cands| ensures cands[k].wareNum > 0 {
      var c := cands[k];
      assert c.info[..0] == [];
      assert c.wareNum == inv[i].packageSize * (begin + k);
      MulAtLeast(inv[i].packageSize, begin + k);
    }
  }

  /** Extending a combination of the first `i` batches by a candidate of
      batch `i` gives a combination of the first `i + 1` batches. */
  lemma ExtendValid(inv: seq<Batch>, i: nat, m: ObInfo, c: ObInfo)
    requires ValidPicks(inv, i, m.info) && Consistent(inv, m)
    requires Candidate(inv, i, c)
    ensures ValidPicks(inv, i + 1, Extend(m, c).info) && Consistent(inv, Extend(m, c))
  {
    ExtendConsistent(inv, m, c);
    var e := Extend(m, c).info;
    assert e == m.info + [c.info[0]];
  }

  /** The inner loop builds only combinations of the first `i + 1` batches,
      and its exact hit is one of them. */
  lemma {:induction false} ExtendAllValid(inv: seq<Batch>, i: nat, m: ObInfo, cands: seq<ObInfo>,
                                          f: seq<ObInfo>, order: nat, coreCnt: nat)
    requires ValidPicks(inv, i, m.info) && Consistent(inv, m)
    requires BatchCandidates(inv, i, cands)
    requires AllReached(inv, i + 1, f, order)
    ensures var r := ExtendAll(m, cands, f, order, coreCnt);
            && (r.Hit? ==> ValidPicks(inv, i + 1, r.goal.info) && Consistent(inv, r.goal))
            && (r.Done? ==> AllReached(inv, i + 1, r.frontier, order))
    decreases |cands|
  {
    if cands != [] {
      ExtendValid(inv, i, m, cands[0]);
      if m.wareNum + cands[0].wareNum != order {
        var x := Extend(m, cands[0]);
        assert Reached(inv, i + 1, x, order);
        assert BatchCandidates(inv, i, cands[1..]);
        ExtendAllValid(inv, i, m, cands[1..], Insert(f, x), order, coreCnt + 1);
      }
    }
  }

  /** A combination of the first `i` batches is one of the first `i + 1`. */
  lemma ReachedLater(inv: seq<Batch>, i: nat, f: seq<ObInfo>, order: nat)
    requires i < |inv| && AllReached(inv, i, f, order)
    ensures AllReached(inv, i + 1, f, order)
  {
  }

  /** One batch's scan keeps every member valid for the batches processed so
      far, and an exact hit it returns is a valid selection. */
  lemma {:induction false} ScanValid(inv: seq<Batch>, i: nat, rest: seq<ObInfo>, f: seq<ObInfo>,
                                     cands: seq<ObInfo>, order: nat, intervalEnd: nat, window: nat,
                                     coreCnt: nat)
    requires AllReached(inv, i, rest, order)
    requires BatchCandidates(inv, i, cands)
    requires AllReached(inv, i + 1, f, order)
    ensures var r := Scan(rest, f, cands, order, intervalEnd, window, coreCnt);
            && (r.Hit? ==> ValidPicks(inv, i + 1, r.goal.info) && Consistent(inv, r.goal))
            && (r.Done? ==> AllReached(inv, i + 1, r.frontier, order))
    decreases |rest|
  {
    if rest != [] {
      var m := rest[0];
      assert m in rest;
      ExtendAllValid(inv, i, m, cands, f, order, coreCnt);
      var e := ExtendAll(m, cands, f, order, coreCnt);
      if e.Done? {
        assert forall x :: x in rest[1..] ==> x in rest;
        ScanValid(inv, i, rest[1..], e.frontier, cands, order, intervalEnd, window, e.coreCnt);
      }
    }
  }

  /** A prune keeps only members the frontier had, so they stay valid. */
  lemma KeepReached(inv: seq<Batch>, i: nat, g: seq<ObInfo>, order: nat, max: nat, window: nat)
    requires AllReached(inv, i, g, order)
    ensures AllReached(inv, i, Keep(g, max, window), order)
  {
    KeepMembers(g, max, window);
  }

  /** The inner loop keeps the set order and loses no member. */
  lemma {:induction false} ExtendAllOrdered(m: ObInfo, cands: seq<ObInfo>, f: seq<ObInfo>,
                                            order: nat, coreCnt: nat)
    requires StrictlyDescending(f) && Picked(cands)
    ensures var r := ExtendAll(m, cands, f, order, coreCnt);
            r.Done? ==> StrictlyDescending(r.frontier) && forall x :: x in f ==> x in r.frontier
    decreases |cands|
  {
    if cands != [] && m.wareNum + cands[0].wareNum != order {
      var x := Extend(m, cands[0]);
      InsertOrdered(f, x);
      ExtendAllOrdered(m, cands[1..], Insert(f, x), order, coreCnt + 1);
    }
  }

  /** A batch's scan keeps the set order and loses no member. */
  lemma {:induction false} ScanOrdered(rest: seq<ObInfo>, f: seq<ObInfo>, cands: seq<ObInfo>,
                                       order: nat, intervalEnd: nat, window: nat, coreCnt: nat)
    requires StrictlyDescending(f) && Picked(cands)
    ensures var r := Scan(rest, f, cands, order, intervalEnd, window, coreCnt);
            r.Done? ==> StrictlyDescending(r.frontier) && forall x :: x in f ==> x in r.frontier
    decreases |rest|
  {
    if rest != [] {
      var m := rest[0];
      ExtendAllOrdered(m, cands, f, order, coreCnt);
      var e := ExtendAll(m, cands, f, order, coreCnt);
      if e.Done? {
        ScanOrdered(rest[1..], e.frontier, cands, order, intervalEnd, window, e.coreCnt);
      }
    }
  }

  /** The picks of a valid selection of the first `i` batches take no more
      than those batches hold. */
  lemma {:induction false} WithinStock(inv: seq<Batch>, i: nat, info: seq<Pick>)
    requires ValidPicks(inv, i, info)
    ensures Total(inv, info) <= InvTotal(inv[..i])
    decreases |info|
  {
    if info != [] {
      var p := info[|info| - 1];
      var init := info[..|info| - 1];
      var id := p.batch;
      assert ValidPicks(inv, id, init);
      WithinStock(inv, id, init);
      MulMonotone(p.count, inv[id].packageNum, inv[id].packageSize);
      assert inv[..id + 1][..id] == inv[..id];
      assert InvTotal(inv[..id + 1]) == InvTotal(inv[..id]) + WareNum(inv[id]);
      InvTotalMonotone(inv, id + 1, i);
    }
  }

  /** Candidate `c` completes the order on top of member `m`. */
  predicate Completes(m: ObInfo, c: ObInfo, order: nat)
  {
    m.wareNum + c.wareNum == order
  }

  /** Some candidate completes the order on top of `m`. */
  predicate AnyCompletes(m: ObInfo, cands: seq<ObInfo>, order: nat)
  {
    exists j :: 0 <= j < |cands| && Completes(m, cands[j], order)
  }

  /** Candidate `j` is the first, in ascending count, to complete the order on top of `m`. */
  predicate FirstCompleting(m: ObInfo, cands: seq<ObInfo>, order: nat, j: int)
  {
    && 0 <= j < |cands|
    && Completes(m, cands[j], order)
    && forall i :: 0 <= i < j ==> !Completes(m, cands[i], order)
  }

  /** Member `k` is the first, in descending total, that some candidate completes. */
  predicate FirstCompleted(rest: seq<ObInfo>, cands: seq<ObInfo>, order: nat, k: int)
  {
    && 0 <= k < |rest|
    && AnyCompletes(rest[k], cands, order)
    && forall l :: 0 <= l < k ==> !AnyCompletes(rest[l], cands, order)
  }

  /** Skipping a first candidate that does not complete the order moves the first completing one by one. */
  lemma FirstCompletingShift(m: ObInfo, cands: seq<ObInfo>, order: nat, j: int)
    requires cands != [] && !Completes(m, cands[0], order)
    requires FirstCompleting(m, cands[1..], order, j)
    ensures FirstCompleting(m, cands, order, j + 1) && cands[j + 1] == cands[1..][j]
  {
    forall i | 0 <= i < j + 1
      ensures !Completes(m, cands[i], order)
    {
      if i > 0 {
        assert cands[1..][i - 1] == cands[i];
      }
    }
  }

  /**
   * The inner loop hits exactly when some candidate completes the order, and
   * then it hits at the first such candidate (in ascending count), having
   * counted one attempt for each candidate before it.
   */
  lemma {:induction false} ExtendAllFirstHit(m: ObInfo, cands: seq<ObInfo>, f: seq<ObInfo>, order: nat, coreCnt: nat)
    requires Picked(cands)
    ensures ExtendAll(m, cands, f, order, coreCnt).Hit? <==> AnyCompletes(m, cands, order)
    ensures var r := ExtendAll(m, cands, f, order, coreCnt);
            r.Hit? ==> exists j :: FirstCompleting(m, cands, order, j)
                                   && r.goal == Extend(m, cands[j]) && r.coreCnt == coreCnt + j
    decreases |cands|
  {
    if cands != [] {
      if Completes(m, cands[0], order) {
        assert FirstCompleting(m, cands, order, 0);
      } else {
        var g := Insert(f, Extend(m, cands[0]));
        ExtendAllFirstHit(m, cands[1..], g, order, coreCnt + 1);
        var r := ExtendAll(m, cands[1..], g, order, coreCnt + 1);
        assert ExtendAll(m, cands, f, order, coreCnt) == r;
        if r.Hit? {
          var j :| FirstCompleting(m, cands[1..], order, j)
                   && r.goal == Extend(m, cands[1..][j]) && r.coreCnt == coreCnt + 1 + j;
          FirstCompletingShift(m, cands, order, j);
        } else {
          forall j | 0 <= j < |cands|
            ensures !Completes(m, cands[j], order)
          {
            if j > 0 {
              assert cands[1..][j - 1] == cands[j];
            }
          }
        }
      }
    }
  }

  /** Member `m` passes both early exits of the scan. */
  predicate Passes(m: ObInfo, order: nat, intervalEnd: nat, window: nat)
  {
    m.wareNum <= order && !(intervalEnd >= m.wareNum && intervalEnd - m.wareNum > window)
  }

  /** How many leading members the scan reaches before an early exit. */
  function Visited(rest: seq<ObInfo>, order: nat, intervalEnd: nat, window: nat): (n: nat)
    ensures n <= |rest|
    ensures forall l :: 0 <= l < n ==> Passes(rest[l], order, intervalEnd, window)
    ensures n < |rest| ==> !Passes(rest[n], order, intervalEnd, window)
  {
    if rest == [] || !Passes(rest[0], order, intervalEnd, window) then 0
    else 1 + Visited(rest[1..], order, intervalEnd, window)
  }

  /** When a batch's scan ends without a hit, no member it reached had a
      candidate completing the order. */
  lemma {:induction false} ScanMisses(rest: seq<ObInfo>, f: seq<ObInfo>, cands: seq<ObInfo>,
                                      order: nat, intervalEnd: nat, window: nat, coreCnt: nat)
    requires Picked(cands)
    ensures var r := Scan(rest, f, cands, order, intervalEnd, window, coreCnt);
            r.Done? ==> forall k :: 0 <= k < Visited(rest, order, intervalEnd, window)
                                   ==> !AnyCompletes(rest[k], cands, order)
    decreases |rest|
  {
    if rest != [] && Passes(rest[0], order, intervalEnd, window) {
      ExtendAllFirstHit(rest[0], cands, f, order, coreCnt);
      var e := ExtendAll(rest[0], cands, f, order, coreCnt);
      if e.Done? && Scan(rest, f, cands, order, intervalEnd, window, coreCnt).Done? {
        assert Scan(rest, f, cands, order, intervalEnd, window, coreCnt)
            == Scan(rest[1..], e.frontier, cands, order, intervalEnd, window, e.coreCnt);
        ScanMisses(rest[1..], e.frontier, cands, order, intervalEnd, window, e.coreCnt);
        var n := Visited(rest, order, intervalEnd, window);
        assert n == 1 + Visited(rest[1..], order, intervalEnd, window);
        forall k | 0 <= k < n
          ensures !AnyCompletes(rest[k], cands, order)
        {
          if k > 0 {
            assert rest[1..][k - 1] == rest[k];
          }
        }
      }
    }
  }

  /** Skipping a first member that no candidate completes moves the first completed member by one. */
  lemma FirstCompletedShift(rest: seq<ObInfo>, cands: seq<ObInfo>, order: nat, k: int)
    requires rest != [] && !AnyCompletes(rest[0], cands, order)
    requires FirstCompleted(rest[1..], cands, order, k)
    ensures FirstCompleted(rest, cands, order, k + 1) && rest[k + 1] == rest[1..][k]
  {
    forall l | 0 <= l < k + 1
      ensures !AnyCompletes(rest[l], cands, order)
    {
      if l > 0 {
        assert rest[1..][l - 1] == rest[l];
      }
    }
  }

  /**
   * A batch's scan hits at the first member it reaches (largest first) that
   * some candidate completes, with the first such candidate. Members
   * inserted during the scan are never among those reached.
   */
  lemma {:induction false} ScanFirstHit(rest: seq<ObInfo>, f: seq<ObInfo>, cands: seq<ObInfo>,
                                        order: nat, intervalEnd: nat, window: nat, coreCnt: nat)
    requires Picked(cands)
    ensures var r := Scan(rest, f, cands, order, intervalEnd, window, coreCnt);
            r.Hit? ==> exists k, j :: && k < Visited(rest, order, intervalEnd, window)
                                      && FirstCompleted(rest, cands, order, k)
                                      && FirstCompleting(rest[k], cands, order, j)
                                      && r.goal == Extend(rest[k], cands[j])
    decreases |rest|
  {
    if rest != [] && Passes(rest[0], order, intervalEnd, window) {
      var m := rest[0];
      ExtendAllFirstHit(m, cands, f, order, coreCnt);
      var e := ExtendAll(m, cands, f, order, coreCnt);
      var n := Visited(rest, order, intervalEnd, window);
      assert n == 1 + Visited(rest[1..], order, intervalEnd, window);
      if e.Hit? {
        var j :| FirstCompleting(m, cands, order, j) && e.goal == Extend(m, cands[j]) && e.coreCnt == coreCnt + j;
        assert FirstCompleted(rest, cands, order, 0);
        assert Scan(rest, f, cands, order, intervalEnd, window, coreCnt).goal == Extend(rest[0], cands[j]);
      } else {
        ScanFirstHit(rest[1..], e.frontier, cands, order, intervalEnd, window, e.coreCnt);
        var r := Scan(rest[1..], e.frontier, cands, order, intervalEnd, window, e.coreCnt);
        assert Scan(rest, f, cands, order, intervalEnd, window, coreCnt) == r;
        if r.Hit? {
          var k, j :| && k < Visited(rest[1..], order, intervalEnd, window)
                      && FirstCompleted(rest[1..], cands, order, k)
                      && FirstCompleting(rest[1..][k], cands, order, j)
                      && r.goal == Extend(rest[1..][k], cands[j]);
          FirstCompletedShift(rest, cands, order, k);
          assert k + 1 < n && FirstCompleting(rest[k + 1], cands, order, j);
        }
      }
    }
  }

  /** Some member of `f` has total `w`. */
  predicate HasTotal(f: seq<ObInfo>, w: nat)
  {
    exists y :: y in f && y.wareNum == w
  }

  /** After `set::insert`, the inserted total is represented, by `x` or by the member that blocked it. */
  lemma InsertHasTotal(f: seq<ObInfo>, x: ObInfo)
    ensures HasTotal(Insert(f, x), x.wareNum)
  {
    if forall m :: m in f ==> !Same(m, x) {
      InsertAdds(f, x);
      assert x in Insert(f, x);
    } else {
      var m :| m in f && Same(m, x);
      assert m in Insert(f, x);
    }
  }

  /**
   * An inner loop that ends without a hit keeps every member and has
   * inserted, for every candidate, a member with the total of `m` plus that
   * candidate.
   */
  lemma {:induction false} ExtendAllInserts(m: ObInfo, cands: seq<ObInfo>, f: seq<ObInfo>, order: nat, coreCnt: nat)
    requires Picked(cands)
    ensures var r := ExtendAll(m, cands, f, order, coreCnt);
            r.Done? ==> && (forall y :: y in f ==> y in r.frontier)
                        && forall j :: 0 <= j < |cands| ==> HasTotal(r.frontier, m.wareNum + cands[j].wareNum)
    decreases |cands|
  {
    if cands != [] && !Completes(m, cands[0], order) {
      var x := Extend(m, cands[0]);
      var g := Insert(f, x);
      InsertHasTotal(f, x);
      ExtendAllInserts(m, cands[1..], g, order, coreCnt + 1);
      var r := ExtendAll(m, cands[1..], g, order, coreCnt + 1);
      assert ExtendAll(m, cands, f, order, coreCnt) == r;
      if r.Done? {
        forall j | 0 <= j < |cands|
          ensures HasTotal(r.frontier, m.wareNum + cands[j].wareNum)
        {
          if j == 0 {
            var y :| y in g && y.wareNum == x.wareNum;
            assert y in r.frontier;
          } else {
            assert cands[1..][j - 1] == cands[j];
          }
        }
      }
    }
  }

  /**
   * A batch's scan that ends without a hit keeps every member and has
   * inserted, for every member it reached and every candidate, a member with
   * their combined total.
   */
  lemma {:induction false} ScanInserts(rest: seq<ObInfo>, f: seq<ObInfo>, cands: seq<ObInfo>,
                                       order: nat, intervalEnd: nat, window: nat, coreCnt: nat)
    requires Picked(cands)
    ensures var r := Scan(rest, f, cands, order, intervalEnd, window, coreCnt);
            r.Done? ==> && (forall y :: y in f ==> y in r.frontier)
                        && forall k, j :: 0 <= k < Visited(rest, order, intervalEnd, window) && 0 <= j < |cands|
                                          ==> HasTotal(r.frontier, rest[k].wareNum + cands[j].wareNum)
    decreases |rest|
  {
    if rest != [] && Passes(rest[0], order, intervalEnd, window) {
      var m := rest[0];
      ExtendAllInserts(m, cands, f, order, coreCnt);
      var e := ExtendAll(m, cands, f, order, coreCnt);
      if e.Done? {
        ScanInserts(rest[1..], e.frontier, cands, order, intervalEnd, window, e.coreCnt);
        var r := Scan(rest[1..], e.frontier, cands, order, intervalEnd, window, e.coreCnt);
        assert Scan(rest, f, cands, order, intervalEnd, window, coreCnt) == r;
        var n := Visited(rest, order, intervalEnd, window);
        assert n == 1 + Visited(rest[1..], order, intervalEnd, window);
        if r.Done? {
          forall k, j | 0 <= k < n && 0 <= j < |cands|
            ensures HasTotal(r.frontier, rest[k].wareNum + cands[j].wareNum)
          {
            if k == 0 {
              var y :| y in e.frontier && y.wareNum == m.wareNum + cands[j].wareNum;
              assert y in r.frontier;
            } else {
              assert rest[1..][k - 1] == rest[k];
            }
          }
        }
      }
    }
  }

  /** A batch's scan that ends without a hit counts one attempt per reached member and candidate. */
  lemma {:induction false} ScanCount(rest: seq<ObInfo>, f: seq<ObInfo>, cands: seq<ObInfo>,
                                     order: nat, intervalEnd: nat, window: nat, coreCnt: nat)
    requires Picked(cands)
    ensures var r := Scan(rest, f, cands, order, intervalEnd, window, coreCnt);
            r.Done? ==> r.coreCnt == coreCnt + Visited(rest, order, intervalEnd, window) * |cands|
    decreases |rest|
  {
    if rest != [] && Passes(rest[0], order, intervalEnd, window) {
      var e := ExtendAll(rest[0], cands, f, order, coreCnt);
      if e.Done? {
        ScanCount(rest[1..], e.frontier, cands, order, intervalEnd, window, e.coreCnt);
        var v := Visited(rest[1..], order, intervalEnd, window);
        assert Visited(rest, order, intervalEnd, window) == 1 + v;
        assert (1 + v) * |cands| == |cands| + v * |cands|;
      }
    }
  }

  /** The inner loop inserts nothing but extensions of `m` by its candidates. */
  lemma {:induction false} ExtendAllOnlyExtends(m: ObInfo, cands: seq<ObInfo>, f: seq<ObInfo>, order: nat, coreCnt: nat)
    requires Picked(cands)
    ensures var r := ExtendAll(m, cands, f, order, coreCnt);
            r.Done? ==> forall y :: y in r.frontier ==> y in f || exists j :: 0 <= j < |cands| && y == Extend(m, cands[j])
    decreases |cands|
  {
    if cands != [] && !Completes(m, cands[0], order) {
      var x := Extend(m, cands[0]);
      var g := Insert(f, x);
      ExtendAllOnlyExtends(m, cands[1..], g, order, coreCnt + 1);
      var r := ExtendAll(m, cands[1..], g, order, coreCnt + 1);
      assert ExtendAll(m, cands, f, order, coreCnt) == r;
      if r.Done? {
        forall y | y in r.frontier && y !in f
          ensures exists j :: 0 <= j < |cands| && y == Extend(m, cands[j])
        {
          if y in g {
            assert y == Extend(m, cands[0]);
          } else {
            var j :| 0 <= j < |cands[1..]| && y == Extend(m, cands[1..][j]);
            assert cands[1..][j] == cands[j + 1];
          }
        }
      }
    }
  }

  /** A batch's scan inserts nothing but extensions of the members it reached by the candidates. */
  lemma {:induction false} ScanOnlyExtends(rest: seq<ObInfo>, f: seq<ObInfo>, cands: seq<ObInfo>,
                                           order: nat, intervalEnd: nat, window: nat, coreCnt: nat)
    requires Picked(cands)
    ensures var r := Scan(rest, f, cands, order, intervalEnd, window, coreCnt);
            r.Done? ==> forall y :: y in r.frontier ==> y in f || exists k, j :: && 0 <= k < Visited(rest, order, intervalEnd, window)
                                                                                 && 0 <= j < |cands|
                                                                                 && y == Extend(rest[k], cands[j])
    decreases |rest|
  {
    if rest != [] && Passes(rest[0], order, intervalEnd, window) {
      var m := rest[0];
      ExtendAllOnlyExtends(m, cands, f, order, coreCnt);
      var e := ExtendAll(m, cands, f, order, coreCnt);
      if e.Done? {
        ScanOnlyExtends(rest[1..], e.frontier, cands, order, intervalEnd, window, e.coreCnt);
        var r := Scan(rest[1..], e.frontier, cands, order, intervalEnd, window, e.coreCnt);
        assert Scan(rest, f, cands, order, intervalEnd, window, coreCnt) == r;
        var n := Visited(rest, order, intervalEnd, window);
        assert n == 1 + Visited(rest[1..], order, intervalEnd, window);
        if r.Done? {
          forall y | y in r.frontier && y !in f
            ensures exists k, j :: 0 <= k < n && 0 <= j < |cands| && y == Extend(rest[k], cands[j])
          {
            if y in e.frontier {
              var j :| 0 <= j < |cands| && y == Extend(m, cands[j]);
              assert 0 < n && y == Extend(rest[0], cands[j]);
            } else {
              var k, j :| 0 <= k < Visited(rest[1..], order, intervalEnd, window) && 0 <= j < |cands|
                          && y == Extend(rest[1..][k], cands[j]);
              assert rest[1..][k] == rest[k + 1];
              assert k + 1 < n;
            }
          }
        }
      }
    }
  }
}
