/**
 * The search driver (the body of `main`): validates the order against the
 * stock, seeds the frontier with the empty combination, and processes the
 * batches in inventory order, stopping at the first exact hit.
 */
module Search {
  import opened Inventory
  import opened Combination
  import opened Frontier
  import opened Expansion
  import opened Soundness

  /** How a search ends, with the expansion attempts and erasures counted. */
  datatype Outcome =
    | InvalidOrder
    | Found(selection: seq<Pick>, coreCnt: nat, eraseCnt: nat)
    | Exhausted(best: nat, coreCnt: nat, eraseCnt: nat)

  /**
   * The stock check before the search: adds up the batch quantities and
   * refuses an order of zero or one above the whole stock.
   */
  method Validate(inv: seq<Batch>, order: nat) returns (ok: bool)
    ensures ok <==> 0 < order <= InvTotal(inv)
  {
    var invWareNum := 0;
    for i := 0 to |inv|
      invariant invWareNum == InvTotal(inv[..i])
    {
      assert inv[..i + 1][..i] == inv[..i];
      invWareNum := invWareNum + WareNum(inv[i]);
    }
    assert inv[..|inv|] == inv;
    ok := !(order == 0 || order > invWareNum);
  }

  /** One batch's scan, with the candidate range taken at the frontier's
      maximum when the batch starts. */
  function BatchStep(inv: seq<Batch>, order: nat, window: nat, i: nat, f: seq<ObInfo>, coreCnt: nat): (r: ScanResult)
    requires PositiveSizes(inv) && i < |inv| && |f| > 0
    ensures r.Done? ==> |f| <= |r.frontier|
  {
    var curMax := f[0].wareNum;
    var range := CandidateRange(inv[i], curMax, order, window);
    ScanGrows(f, f, Candidates(inv, i, range.begin, range.end), order, Min(curMax, order), window, coreCnt);
    Scan(f, f, Candidates(inv, i, range.begin, range.end), order, Min(curMax, order), window, coreCnt)
  }

  /** The batch loop from batch `i` on, with frontier `f`. */
  function Loop(inv: seq<Batch>, order: nat, window: nat, i: nat, f: seq<ObInfo>,
                coreCnt: nat, eraseCnt: nat): Outcome
    requires PositiveSizes(inv) && i <= |inv| && |f| > 0
    decreases |inv| - i
  {
    if i == |inv| then Exhausted(f[0].wareNum, coreCnt, eraseCnt)
    else
      match BatchStep(inv, order, window, i, f, coreCnt)
      case Hit(g, c) => Found(g.info, c, eraseCnt)
      case Done(g, c) =>
        var kept := Keep(g, g[0].wareNum, window);
        Loop(inv, order, window, i + 1, kept, c, eraseCnt + (|g| - |kept|))
  }

  /** A batch's exact hit ends the search with its picks and counters. */
  lemma LoopHit(inv: seq<Batch>, order: nat, window: nat, i: nat, f: seq<ObInfo>,
                coreCnt: nat, eraseCnt: nat, goal: ObInfo, c: nat)
    requires PositiveSizes(inv) && i < |inv| && |f| > 0
    requires BatchStep(inv, order, window, i, f, coreCnt) == Hit(goal, c)
    ensures Loop(inv, order, window, i, f, coreCnt, eraseCnt) == Found(goal.info, c, eraseCnt)
  {
  }

  /** Without a hit, the search goes on from the pruned frontier with the
      erasures added. */
  lemma LoopDone(inv: seq<Batch>, order: nat, window: nat, i: nat, f: seq<ObInfo>,
                 coreCnt: nat, eraseCnt: nat, g: seq<ObInfo>, c: nat)
    requires PositiveSizes(inv) && i < |inv| && |f| > 0
    requires BatchStep(inv, order, window, i, f, coreCnt) == Done(g, c)
    ensures |g| > 0
    ensures Loop(inv, order, window, i, f, coreCnt, eraseCnt)
         == Loop(inv, order, window, i + 1, Keep(g, g[0].wareNum, window), c,
                 eraseCnt + (|g| - |Keep(g, g[0].wareNum, window)|))
  {
  }

  /** Without a hit, the search goes on from the pruned frontier with the
      erasures added: the prune keeps a non-empty frontier in set order. */
  lemma LoopNext(inv: seq<Batch>, order: nat, window: nat, i: nat, f: seq<ObInfo>,
                 coreCnt: nat, eraseCnt: nat, g: seq<ObInfo>, c: nat)
    requires PositiveSizes(inv) && i < |inv| && StrictlyDescending(f) && |f| > 0
    requires BatchStep(inv, order, window, i, f, coreCnt) == Done(g, c)
    ensures |g| > 0
    ensures StrictlyDescending(Keep(g, g[0].wareNum, window)) && |Keep(g, g[0].wareNum, window)| > 0
    ensures Loop(inv, order, window, i, f, coreCnt, eraseCnt)
         == Loop(inv, order, window, i + 1, Keep(g, g[0].wareNum, window), c,
                 eraseCnt + (|g| - |Keep(g, g[0].wareNum, window)|))
  {
    var curMax := f[0].wareNum;
    var range := CandidateRange(inv[i], curMax, order, window);
    var cands := Candidates(inv, i, range.begin, range.end);
    ScanOrdered(f, f, cands, order, Min(curMax, order), window, coreCnt);
    assert f[0] in g;
    KeepOrdered(g, g[0].wareNum, window);
    KeepIsPrefix(g, g[0].wareNum, window);
  }

  /** The whole search on inventory `inv`, order `order` and window `window`. */
  function Run(inv: seq<Batch>, order: nat, window: nat): Outcome
    requires PositiveSizes(inv)
  {
    if order == 0 || order > InvTotal(inv) then InvalidOrder
    else Loop(inv, order, window, 0, [Empty], 0, 0)
  }

  /** What a search that ran promises: an exact hit is a selection of
      distinct batches, one package up to the whole batch each, adding up to
      the order; an exhausted search misses the order. */
  predicate Sound(inv: seq<Batch>, order: nat, out: Outcome)
  {
    && !out.InvalidOrder?
    && (out.Found? ==> ValidPicks(inv, |inv|, out.selection) && Total(inv, out.selection) == order)
    && (out.Exhausted? ==> out.best != order)
  }

  /** A batch's scan over valid combinations of the earlier batches keeps
      every member valid, and its exact hit is a valid selection. */
  lemma BatchStepValid(inv: seq<Batch>, order: nat, window: nat, i: nat, f: seq<ObInfo>, coreCnt: nat)
    requires PositiveSizes(inv) && i < |inv| && |f| > 0
    requires AllReached(inv, i, f, order)
    ensures var r := BatchStep(inv, order, window, i, f, coreCnt);
            && (r.Hit? ==> ValidPicks(inv, i + 1, r.goal.info) && Total(inv, r.goal.info) == order)
            && (r.Done? ==> AllReached(inv, i + 1, r.frontier, order))
  {
    var curMax := f[0].wareNum;
    var range := CandidateRange(inv[i], curMax, order, window);
    var cands := Candidates(inv, i, range.begin, range.end);
    CandidatesOfBatch(inv, i, range.begin, range.end);
    ReachedLater(inv, i, f, order);
    ScanValid(inv, i, f, f, cands, order, Min(curMax, order), window, coreCnt);
  }

  /** From any frontier of valid combinations, the search ends in a valid
      selection that makes up the order exactly, or without one and with a
      best total other than the order. */
  lemma {:induction false} LoopValid(inv: seq<Batch>, order: nat, window: nat, i: nat, f: seq<ObInfo>,
                                     coreCnt: nat, eraseCnt: nat)
    requires PositiveSizes(inv) && i <= |inv| && |f| > 0
    requires AllReached(inv, i, f, order)
    ensures Sound(inv, order, Loop(inv, order, window, i, f, coreCnt, eraseCnt))
    decreases |inv| - i
  {
    if i == |inv| {
      assert f[0] in f;
    } else {
      BatchStepValid(inv, order, window, i, f, coreCnt);
      var r := BatchStep(inv, order, window, i, f, coreCnt);
      if r.Hit? {
        LoopHit(inv, order, window, i, f, coreCnt, eraseCnt, r.goal, r.coreCnt);
        ValidLater(inv, i + 1, r.goal.info);
      } else {
        var g := r.frontier;
        LoopDone(inv, order, window, i, f, coreCnt, eraseCnt, g, r.coreCnt);
        var kept := Keep(g, g[0].wareNum, window);
        KeepReached(inv, i + 1, g, order, g[0].wareNum, window);
        LoopValid(inv, order, window, i + 1, kept, r.coreCnt, eraseCnt + (|g| - |kept|));
      }
    }
  }

  /** Valid picks of the first `i` batches are valid picks of the inventory. */
  lemma ValidLater(inv: seq<Batch>, i: nat, info: seq<Pick>)
    requires i <= |inv| && ValidPicks(inv, i, info)
    ensures ValidPicks(inv, |inv|, info)
  {
  }

  /**
   * The search refuses exactly a zero order and one above the whole stock;
   * an exact hit is a selection of distinct batches, one package up to the
   * whole batch each, whose packages add up to the order; an exhausted search
   * reports a best total that misses the order.
   */
  lemma RunValid(inv: seq<Batch>, order: nat, window: nat)
    requires PositiveSizes(inv)
    ensures var out := Run(inv, order, window);
            && (out.InvalidOrder? <==> order == 0 || order > InvTotal(inv))
            && (out.Found? ==> ValidPicks(inv, |inv|, out.selection) && Total(inv, out.selection) == order)
            && (out.Exhausted? ==> out.best != order)
  {
    if order != 0 && order <= InvTotal(inv) {
      assert Consistent(inv, Empty);
      LoopValid(inv, order, window, 0, [Empty], 0, 0);
    }
  }

  /** The refusal loses nothing: no selection of the stock exceeds it. */
  lemma NothingAboveStock(inv: seq<Batch>, selection: seq<Pick>)
    requires ValidPicks(inv, |inv|, selection)
    ensures Total(inv, selection) <= InvTotal(inv)
  {
    WithinStock(inv, |inv|, selection);
    assert inv[..|inv|] == inv;
  }

  /**
   * The frontier's maximum never falls from one batch to the next: the scan
   * only adds members and the prune keeps the maximum.
   */
  lemma MaxNeverDecreases(inv: seq<Batch>, order: nat, window: nat, i: nat, f: seq<ObInfo>, coreCnt: nat)
    requires PositiveSizes(inv) && i < |inv| && StrictlyDescending(f) && |f| > 0
    ensures var r := BatchStep(inv, order, window, i, f, coreCnt);
            r.Done? ==> (&& |r.frontier| > 0
                         && |Keep(r.frontier, r.frontier[0].wareNum, window)| > 0
                         && Keep(r.frontier, r.frontier[0].wareNum, window)[0].wareNum >= f[0].wareNum)
  {
    var curMax := f[0].wareNum;
    var range := CandidateRange(inv[i], curMax, order, window);
    var cands := Candidates(inv, i, range.begin, range.end);
    ScanOrdered(f, f, cands, order, Min(curMax, order), window, coreCnt);
    var r := BatchStep(inv, order, window, i, f, coreCnt);
    if r.Done? {
      var g := r.frontier;
      assert f[0] in g;
      var j :| 0 <= j < |g| && g[j] == f[0];
      assert g[0].wareNum >= g[j].wareNum;
      KeepIsPrefix(g, g[0].wareNum, window);
    }
  }

  /**
   * Once the frontier's maximum is above the order, a batch's scan stops at
   * its first member: nothing is tried and the frontier is left as it was.
   */
  lemma OvershootStopsScan(inv: seq<Batch>, order: nat, window: nat, i: nat, f: seq<ObInfo>, coreCnt: nat)
    requires PositiveSizes(inv) && i < |inv| && |f| > 0
    requires f[0].wareNum > order
    ensures BatchStep(inv, order, window, i, f, coreCnt) == Done(f, coreCnt)
  {
  }

  /**
   * One batch of `main`'s loop up to the prune: the maximum at the start of
   * the batch, the candidate range and candidates, and the scan.
   */
  method ProcessBatch(inv: seq<Batch>, order: nat, window: nat, i: nat, obInfos: seq<ObInfo>, coreCnt: nat)
    returns (r: ScanResult)
    requires PositiveSizes(inv) && i < |inv| && StrictlyDescending(obInfos) && |obInfos| > 0
    ensures r == BatchStep(inv, order, window, i, obInfos, coreCnt)
  {
    var curMax := obInfos[0].wareNum;
    var range := CandidateRange(inv[i], curMax, order, window);
    var batchObInfos := BatchObInfos(inv, i, range.begin, range.end);
    CandidatesOfBatch(inv, i, range.begin, range.end);
    r := ExpandBatch(obInfos, batchObInfos, order, window, curMax, coreCnt);
  }

  /**
   * One turn of `main`'s batch loop: the batch's scan, then either the exact
   * hit or the prune with its erasures counted. Without a hit the search
   * goes on from the new frontier and counters.
   */
  method BatchTurn(inv: seq<Batch>, order: nat, window: nat, i: nat, obInfos: seq<ObInfo>,
                   coreCnt: nat, eraseCnt: nat)
    returns (hit: bool, out: Outcome, next: seq<ObInfo>, nextCore: nat, nextErase: nat)
    requires PositiveSizes(inv) && i < |inv| && StrictlyDescending(obInfos) && |obInfos| > 0
    ensures hit ==> out == Loop(inv, order, window, i, obInfos, coreCnt, eraseCnt)
    ensures !hit ==> StrictlyDescending(next) && |next| > 0
    ensures !hit ==> (Loop(inv, order, window, i, obInfos, coreCnt, eraseCnt)
                      == Loop(inv, order, window, i + 1, next, nextCore, nextErase))
  {
    var r := ProcessBatch(inv, order, window, i, obInfos, coreCnt);
    if r.Hit? {
      LoopHit(inv, order, window, i, obInfos, coreCnt, eraseCnt, r.goal, r.coreCnt);
      return true, Found(r.goal.info, r.coreCnt, eraseCnt), obInfos, coreCnt, eraseCnt;
    }
    LoopNext(inv, order, window, i, obInfos, coreCnt, eraseCnt, r.frontier, r.coreCnt);
    var erased;
    next, erased := Prune(r.frontier, window);
    hit, out := false, InvalidOrder;
    nextCore, nextErase := r.coreCnt, eraseCnt + erased;
  }

  /**
   * The batch loop of `main` after the stock check: the frontier is held in
   * `obInfos`, seeded with the empty combination, and the counters of
   * expansion attempts and erasures travel with it.
   */
  method BatchLoop(inv: seq<Batch>, order: nat, window: nat) returns (out: Outcome)
    requires PositiveSizes(inv)
    ensures out == Loop(inv, order, window, 0, [Empty], 0, 0)
  {
    ghost var target := Loop(inv, order, window, 0, [Empty], 0, 0);
    var obInfos := [Empty];
    var coreCnt, eraseCnt := 0, 0;
    var i := 0;
    while i < |inv|
      invariant i <= |inv| && StrictlyDescending(obInfos) && |obInfos| > 0
      invariant target == Loop(inv, order, window, i, obInfos, coreCnt, eraseCnt)
    {
      var hit;
      hit, out, obInfos, coreCnt, eraseCnt := BatchTurn(inv, order, window, i, obInfos, coreCnt, eraseCnt);
      if hit {
        return;
      }
      i := i + 1;
    }
    out := Exhausted(obInfos[0].wareNum, coreCnt, eraseCnt);
  }

  /** The search of `main`, with its window, order and inventory as
      parameters: the stock check, then the batch loop. */
  method Search(inv: seq<Batch>, order: nat, window: nat) returns (out: Outcome)
    requires PositiveSizes(inv)
    ensures out == Run(inv, order, window)
    ensures out.InvalidOrder? <==> order == 0 || order > InvTotal(inv)
    ensures out.Found? ==> ValidPicks(inv, |inv|, out.selection) && Total(inv, out.selection) == order
    ensures out.Exhausted? ==> out.best != order
  {
    RunValid(inv, order, window);
    var ok := Validate(inv, order);
    if !ok {
      return InvalidOrder;
    }
    out := BatchLoop(inv, order, window);
  }
}
