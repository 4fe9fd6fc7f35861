/**
 * The frontier: the ordered set of combinations `set<ObInfo, greater<ObInfo>>`,
 * held as a sequence in its iteration order (largest total first). Members
 * are compared by total alone, so a total appears at most once.
 */
module Frontier {
  import opened Combination

  /** Iteration order of the set: strictly decreasing totals. */
  predicate StrictlyDescending(f: seq<ObInfo>)
  {
    forall i, j :: 0 <= i < j < |f| ==> f[i].wareNum > f[j].wareNum
  }

  /**
   * set::insert: `x` goes in at its place in the order unless a member with
   * the same total is already there. Nothing already present is lost or
   * altered, and nothing but `x` is added.
   */
  function Insert(f: seq<ObInfo>, x: ObInfo): (r: seq<ObInfo>)
    ensures forall m :: m in f ==> m in r
    ensures forall m :: m in r ==> m in f || m == x
  {
    if f == [] then [x]
    else if Greater(x, f[0]) then [x] + f
    else if Same(x, f[0]) then f
    else
      assert f == [f[0]] + f[1..];
      [f[0]] + Insert(f[1..], x)
  }

  /** A combination whose total is not yet in the frontier is added to it. */
  lemma {:induction false} InsertAdds(f: seq<ObInfo>, x: ObInfo)
    ensures (forall m :: m in f ==> !Same(m, x)) ==> x in Insert(f, x)
  {
    if f != [] && (forall m :: m in f ==> !Same(m, x)) {
      assert f[0] in f;
      if !Greater(x, f[0]) {
        InsertAdds(f[1..], x);
        assert forall m :: m in f[1..] ==> m in f;
        assert Insert(f, x) == [f[0]] + Insert(f[1..], x);
      }
    }
  }

  /** Insertion never shrinks the frontier. */
  lemma {:induction false} InsertGrows(f: seq<ObInfo>, x: ObInfo)
    ensures |f| <= |Insert(f, x)| <= |f| + 1
  {
    if f != [] && !Greater(x, f[0]) && !Same(x, f[0]) {
      InsertGrows(f[1..], x);
    }
  }

  /** Insertion keeps the set order. */
  lemma {:induction false} InsertOrdered(f: seq<ObInfo>, x: ObInfo)
    requires StrictlyDescending(f)
    ensures StrictlyDescending(Insert(f, x))
  {
    if f != [] && !Greater(x, f[0]) && !Same(x, f[0]) {
      InsertOrdered(f[1..], x);
      var tail := Insert(f[1..], x);
      assert forall m :: m in tail ==> m.wareNum < f[0].wareNum by {
        forall m | m in tail ensures m.wareNum < f[0].wareNum {
          if m != x {
            assert m in f[1..];
            var j :| 0 <= j < |f[1..]| && f[1..][j] == m;
            assert f[j + 1] == m;
          }
        }
      }
      var r := [f[0]] + tail;
      forall i, j | 0 <= i < j < |r| ensures r[i].wareNum > r[j].wareNum {
        assert r[j] == tail[j - 1];
        if i > 0 {
          assert r[i] == tail[i - 1];
        } else {
          assert tail[j - 1] in tail;
        }
      }
      assert Insert(f, x) == r;
    }
  }

  /**
   * Insertion leaves the frontier as it was exactly when some member already
   * has the total of `x`: the picks stored first for a total win.
   */
  lemma {:induction false} InsertFirstWins(f: seq<ObInfo>, x: ObInfo)
    requires StrictlyDescending(f)
    ensures Insert(f, x) == f <==> exists m :: m in f && Same(m, x)
  {
    if f == [] {
    } else if Greater(x, f[0]) {
      assert |Insert(f, x)| == |f| + 1;
      forall m | m in f ensures !Same(m, x) {
        var j :| 0 <= j < |f| && f[j] == m;
      }
    } else if Same(x, f[0]) {
      assert f[0] in f;
    } else {
      InsertFirstWins(f[1..], x);
      assert f == [f[0]] + f[1..];
      assert (exists m :: m in f && Same(m, x)) <==> (exists m :: m in f[1..] && Same(m, x));
    }
  }

  /**
   * Inserting a total larger than the member at distance `n` from the end of
   * the frontier leaves the last `n` members where they were: an iterator
   * standing on that member still sees the same members after it.
   */
  lemma {:induction false} InsertKeepsSuffix(f: seq<ObInfo>, x: ObInfo, n: nat)
    requires StrictlyDescending(f)
    requires 0 < n <= |f|
    requires x.wareNum > f[|f| - n].wareNum
    ensures var r := Insert(f, x); n <= |r| && r[|r| - n..] == f[|f| - n..]
  {
    if !Greater(x, f[0]) && !Same(x, f[0]) {
      assert n < |f|;
      InsertKeepsSuffix(f[1..], x, n);
      var r := Insert(f, x);
      assert r == [f[0]] + Insert(f[1..], x);
    }
  }

  /** The members a prune leaves: those no more than `window` below `max`,
      in their original order. */
  function Keep(f: seq<ObInfo>, max: nat, window: nat): (r: seq<ObInfo>)
    ensures |r| <= |f|
    ensures forall m :: m in r ==> m in f
    ensures |f| > 0 && max == f[0].wareNum ==> |r| > 0
  {
    if f == [] then []
    else Keep(f[..|f| - 1], max, window) + (if max - f[|f| - 1].wareNum > window then [] else [f[|f| - 1]])
  }

  /** A prune removes exactly the members more than `window` below `max`. */
  lemma {:induction false} KeepMembers(f: seq<ObInfo>, max: nat, window: nat)
    ensures forall m :: m in Keep(f, max, window) <==> m in f && !(max - m.wareNum > window)
  {
    if f != [] {
      KeepMembers(f[..|f| - 1], max, window);
      assert f == f[..|f| - 1] + [f[|f| - 1]];
    }
  }

  /** A prune keeps the set order. */
  lemma {:induction false} KeepOrdered(f: seq<ObInfo>, max: nat, window: nat)
    requires StrictlyDescending(f)
    ensures StrictlyDescending(Keep(f, max, window))
  {
    if f != [] {
      var init, last := f[..|f| - 1], f[|f| - 1];
      KeepOrdered(init, max, window);
      KeepMembers(init, max, window);
      forall m | m in Keep(init, max, window) ensures m.wareNum > last.wareNum {
        var j :| 0 <= j < |init| && init[j] == m;
        assert f[j] == m;
      }
    }
  }

  /** In set order, once the last member survives a prune, every member does. */
  lemma {:induction false} KeepAll(f: seq<ObInfo>, max: nat, window: nat)
    requires StrictlyDescending(f) && |f| > 0
    requires !(max - f[|f| - 1].wareNum > window)
    ensures Keep(f, max, window) == f
  {
    var init := f[..|f| - 1];
    if init != [] {
      assert init[|init| - 1].wareNum > f[|f| - 1].wareNum;
      KeepAll(init, max, window);
    }
    assert f == init + [f[|f| - 1]];
  }

  /**
   * On a frontier in set order a prune keeps a prefix: every member it
   * removes lies below every member it keeps. With `max` the first total,
   * the prefix holds at least the maximum.
   */
  lemma {:induction false} KeepIsPrefix(f: seq<ObInfo>, max: nat, window: nat)
    requires StrictlyDescending(f)
    ensures var r := Keep(f, max, window); r == f[..|r|]
    ensures |f| > 0 && max == f[0].wareNum ==> |Keep(f, max, window)| > 0
  {
    if f != [] {
      var init, last := f[..|f| - 1], f[|f| - 1];
      if !(max - last.wareNum > window) {
        KeepAll(f, max, window);
      } else {
        KeepIsPrefix(init, max, window);
        var k := Keep(init, max, window);
        assert Keep(f, max, window) == k;
        assert init[..|k|] == f[..|k|];
      }
      if max == f[0].wareNum {
        KeepMembers(f, max, window);
        assert f[0] in Keep(f, max, window);
      }
    }
  }

  /** With a zero window a prune leaves the maximum alone. */
  lemma ZeroWindowKeepsOnlyMax(f: seq<ObInfo>)
    requires StrictlyDescending(f) && |f| > 0
    ensures Keep(f, f[0].wareNum, 0) == [f[0]]
  {
    var r := Keep(f, f[0].wareNum, 0);
    KeepIsPrefix(f, f[0].wareNum, 0);
    KeepMembers(f, f[0].wareNum, 0);
  }

  /** Pruning one more member extends the prune of the members before it. */
  lemma KeepSnoc(s: seq<ObInfo>, x: ObInfo, max: nat, window: nat)
    ensures Keep(s + [x], max, window)
         == Keep(s, max, window) + (if max - x.wareNum > window then [] else [x])
  {
    assert (s + [x])[..|s|] == s;
  }

  /**
   * The erase loop after each batch: walks the whole frontier and erases
   * every member more than `window` below the maximum taken before the walk,
   * counting the erasures.
   */
  method Prune(f: seq<ObInfo>, window: nat) returns (kept: seq<ObInfo>, erased: nat)
    requires |f| > 0
    ensures kept == Keep(f, f[0].wareNum, window)
    ensures erased == |f| - |kept|
  {
    var curMax := f[0].wareNum;
    kept := f;
    erased := 0;
    var it := 0;
    assert f[..0] == [];
    while it < |kept|
      invariant 0 <= it <= |kept|
      invariant |kept| + erased == |f|
      invariant kept[..it] == Keep(f[..it + erased], curMax, window)
      invariant kept[it..] == f[it + erased..]
    {
      ghost var seen := it + erased;
      assert kept[it] == f[seen] by {
        assert kept[it..][0] == f[seen..][0];
      }
      ghost var done := Keep(f[..seen], curMax, window);
      ghost var next := Keep(f[..seen + 1], curMax, window);
      assert f[..seen + 1] == f[..seen] + [f[seen]];
      KeepSnoc(f[..seen], f[seen], curMax, window);
      if curMax - kept[it].wareNum > window {
        assert next == done;
        ghost var before := kept;
        kept := kept[..it] + kept[it + 1..];
        erased := erased + 1;
        assert kept[..it] == before[..it];
        assert kept[it..] == before[it + 1..] == before[it..][1..];
      } else {
        assert next == done + [kept[it]];
        assert kept[..it + 1] == kept[..it] + [kept[it]];
        assert kept[it + 1..] == kept[it..][1..];
        it := it + 1;
      }
    }
    assert f[..it + erased] == f;
  }
}
