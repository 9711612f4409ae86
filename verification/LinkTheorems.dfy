/** What resolveLinks promises about every link map: which walks stop, and that a loop is
    reported exactly for the links whose chain runs into a cycle. */
module LinkTheorems {
  import opened Names
  import opened LinkChains
  import opened Payload
  import opened PayloadEntriesCache

  /** For a link with a named target everywhere along its chain, the cache answers with the
      end of the chain, and with "Loop found" exactly when there is no end. */
  lemma LoopFoundExactlyOnCycles(m: Links, path: string)
    requires path in m
    requires "" !in m && forall k <- m :: m[k] != ""
    ensures LinkTargetIn(Resolved(m), path) == Err(LoopFound(path)) <==> RunsIntoCycle(m, path)
    ensures !RunsIntoCycle(m, path) ==>
              exists n: nat :: n > 0 && Iter(m, path, n) !in m
                               && LinkTargetIn(Resolved(m), path) == Ok(Iter(m, path, n))
  {
    EndsOrCycles(m, path);
    if Ends(m, path) {
      var n: nat :| Iter(m, path, n) !in m;
      ResolveIs(m, path, n);
      EndIsNamed(m, path, n);
    }
  }

  lemma {:induction false} EndIsNamed(m: Links, x: string, n: nat)
    requires x in m && Iter(m, x, n) !in m
    requires forall k <- m :: m[k] != ""
    ensures Iter(m, x, n) != ""
    decreases n
  {
    if m[x] in m {
      EndIsNamed(m, m[x], n - 1);
    } else {
      assert Iter(m, m[x], n - 1) == m[x];
    }
  }

  /** Without that assumption the empty target is the one way to be taken for a loop. */
  lemma LoopFoundForEveryLink(m: Links, path: string)
    requires path in m && "" !in m
    ensures LinkTargetIn(Resolved(m), path) == Err(LoopFound(path))
            <==> RunsIntoCycle(m, path) || exists n: nat :: Iter(m, path, n) == ""
  {
    EndsOrCycles(m, path);
    if exists n: nat :: Iter(m, path, n) == "" {
      var n: nat :| Iter(m, path, n) == "";
      ResolveIs(m, path, n);
    }
    if Ends(m, path) {
      var n: nat :| Iter(m, path, n) !in m;
      ResolveIs(m, path, n);
    }
  }

  // When the walks stop

  /** The state of the cache when the outer loop comes to k, if all earlier walks stopped. */
  ghost function CacheAt(m: Links, k: string): Links {
    map j | j in m :: if Less(j, k) then Resolve(m, j) else m[j]
  }

  /** The loop test of the walk from k fails after some number of jumps. */
  ghost predicate WalkEnds(cache: Links, k: string)
    requires k in cache
  {
    exists n: nat :: WalkLeaves(cache, k, n)
  }

  ghost predicate WalkLeaves(cache: Links, k: string, n: nat)
    requires k in cache
  {
    var jump := Iter(cache, cache[k], n);
    jump !in cache || jump == k
  }

  /** As long as the original chain has met no stopping name, the walk in the rewritten cache
      follows it. */
  lemma {:induction false} WalkFollowsChain(m: Links, k: string, n: nat)
    requires k in m
    requires forall i: nat | 0 < i <= n :: !StopAt(m, k, Iter(m, k, i))
    ensures Iter(CacheAt(m, k), CacheAt(m, k)[k], n) == Iter(m, k, n + 1)
  {
    var cache := CacheAt(m, k);
    LessIrreflexive(k);
    if n == 0 {
      IterNext(m, k, 0);
    } else {
      WalkFollowsChain(m, k, n - 1);
      var y := Iter(m, k, n);
      assert !StopAt(m, k, y);
      IterNext(m, k, n);
      IterAdds(cache, cache[k], n - 1, 1);
      IterNext(cache, cache[k], n - 1);
    }
  }

  /** The walk from k ends exactly when the original chain meets a stopping name: the measure
      behind ResolveLinks is not only sufficient. */
  lemma WalkEndsExactly(m: Links, k: string)
    requires k in m && "" !in m
    ensures WalkEnds(CacheAt(m, k), k) <==> Stops(m, k)
  {
    var cache := CacheAt(m, k);
    if Stops(m, k) {
      var n: nat :| n > 0 && StopAt(m, k, Iter(m, k, n));
      WalkEndsBy(m, k, n);
    } else {
      forall n: nat ensures !WalkLeaves(cache, k, n) {
        WalkFollowsChain(m, k, n);
        assert !StopAt(m, k, Iter(m, k, n + 1));
      }
    }
  }

  lemma {:induction false} WalkEndsBy(m: Links, k: string, n: nat)
    requires k in m && "" !in m
    requires n > 0 && StopAt(m, k, Iter(m, k, n))
    ensures WalkEnds(CacheAt(m, k), k)
    decreases n
  {
    var cache := CacheAt(m, k);
    if i: nat :| 0 < i < n && StopAt(m, k, Iter(m, k, i)) {
      WalkEndsBy(m, k, i);
    } else {
      WalkFollowsChain(m, k, n - 1);
      var y := Iter(m, k, n);
      if y !in m || y == k {
        assert WalkLeaves(cache, k, n - 1);
      } else {
        IterNext(cache, cache[k], n - 1);
        ResolveLeavesMap(m, y);
        assert WalkLeaves(cache, k, n);
      }
    }
  }

  /** A cycle that a link runs into, without being on it, has a name that sorts before the
      link. */
  ghost predicate CyclesSortFirst(m: Links) {
    forall k, i: nat :: k in m && !OnCycle(m, k) && OnCycle(m, Iter(m, k, i)) ==> SmallerAhead(m, Iter(m, k, i), k)
  }

  ghost predicate SmallerAhead(m: Links, c: string, k: string) {
    exists j: nat :: Less(Iter(m, c, j), k)
  }

  /** resolveLinks terminates on exactly these maps. */
  lemma TerminatesExactly(m: Links)
    ensures Terminates(m) <==> CyclesSortFirst(m)
  {
    if Terminates(m) {
      forall k, i: nat | k in m && !OnCycle(m, k) && OnCycle(m, Iter(m, k, i))
        ensures SmallerAhead(m, Iter(m, k, i), k)
      {
        CycleHasSmaller(m, k, i);
      }
    }
    if CyclesSortFirst(m) {
      forall k <- m ensures Stops(m, k) {
        StopsByCycles(m, k);
      }
    }
  }

  /** The cache really is in that state when the outer loop comes to its least remaining key. */
  lemma CacheAtLeast(original: Links, current: Links, rest: set<string>, k: string)
    requires Partly(original, current, rest) && DoneBefore(original, rest) && IsLeast(k, rest)
    ensures current == CacheAt(original, k)
  {
    LessIrreflexive(k);
    forall j <- original ensures Less(j, k) <==> j !in rest {
      if j in rest && j != k {
        NotBefore(k, j);
      }
    }
  }

  /** Hence every walk of the loop ends on exactly these maps. */
  lemma AllWalksEndExactly(m: Links)
    requires "" !in m
    ensures (forall k <- m :: WalkEnds(CacheAt(m, k), k)) <==> CyclesSortFirst(m)
  {
    hide WalkEnds, Stops, CyclesSortFirst;
    forall k <- m ensures WalkEnds(CacheAt(m, k), k) <==> Stops(m, k) {
      WalkEndsExactly(m, k);
    }
    TerminatesExactly(m);
  }

  lemma StopsByCycles(m: Links, k: string)
    requires CyclesSortFirst(m) && k in m
    ensures Stops(m, k)
  {
    EndsOrCycles(m, k);
    if Ends(m, k) {
      var n: nat :| Iter(m, k, n) !in m;
      assert n > 0 && StopAt(m, k, Iter(m, k, n));
    } else if OnCycle(m, k) {
      var n: nat :| n > 0 && Iter(m, k, n) == k;
      assert StopAt(m, k, Iter(m, k, n));
    } else {
      var i: nat :| OnCycle(m, Iter(m, k, i));
      var j: nat :| Less(Iter(m, Iter(m, k, i), j), k);
      IterAdds(m, k, i, j);
      LessIrreflexive(k);
      assert i + j > 0 && StopAt(m, k, Iter(m, k, i + j));
    }
  }

  /** By induction on the sorting position: the stopping name of k is smaller, and either on
      the cycle itself or a link that runs into it. */
  lemma CycleHasSmaller(m: Links, k: string, i: nat)
    requires Terminates(m)
    requires k in m && !OnCycle(m, k) && OnCycle(m, Iter(m, k, i))
    ensures SmallerAhead(m, Iter(m, k, i), k)
    decreases Rank(m.Keys, k)
  {
    var c := Iter(m, k, i);
    var n: nat :| n > 0 && StopAt(m, k, Iter(m, k, n));
    var y := Iter(m, k, n);
    CycleNeverEnds(m, c);
    ResolveAlong(m, k, i);
    assert y in m;
    assert y != k;
    if i <= n {
      IterAdds(m, k, i, n - i);
      assert Less(Iter(m, c, n - i), k);
    } else {
      IterAdds(m, k, n, i - n);
      assert Iter(m, y, i - n) == c;
      if OnCycle(m, y) {
        BackOnCycle(m, y, i - n);
      } else {
        RankDecreases(m.Keys, y, k);
        CycleHasSmaller(m, y, i - n);
        var j: nat :| Less(Iter(m, c, j), y);
        LessTransitive(Iter(m, c, j), y, k);
      }
    }
  }

  /** From any name ahead on its cycle, y comes up again. */
  lemma BackOnCycle(m: Links, y: string, d: nat)
    requires OnCycle(m, y)
    ensures exists j: nat :: Iter(m, Iter(m, y, d), j) == y
  {
    var period: nat :| period > 0 && Iter(m, y, period) == y;
    CycleRepeats(m, y, period, d);
    TimesAtLeast(period, d);
    IterAdds(m, y, d, period * d - d);
    assert Iter(m, Iter(m, y, d), period * d - d) == y;
  }

  lemma TimesAtLeast(period: nat, d: nat)
    requires period > 0
    ensures period * d >= d
  {
  }

  /** Chains without cycles always stop, and so do maps in which every link is on a cycle. */
  lemma AcyclicTerminates(m: Links)
    requires forall k <- m :: !OnCycle(m, k)
    ensures Terminates(m)
  {
    TerminatesExactly(m);
  }

  lemma PureCyclesTerminate(m: Links)
    requires forall k <- m :: OnCycle(m, k)
    ensures Terminates(m)
  {
    TerminatesExactly(m);
  }

  /** The condition is needed: with a -> b, b -> c, c -> b the walk from a goes round for ever. */
  lemma WalkIntoLaterCycleDiverges()
    ensures var m := map["a" := "b", "b" := "c", "c" := "b"];
            !Terminates(m) && forall n: nat :: !WalkLeaves(CacheAt(m, "a"), "a", n)
  {
    var m := map["a" := "b", "b" := "c", "c" := "b"];
    forall n: nat | n > 0 ensures !StopAt(m, "a", Iter(m, "a", n)) {
      BetweenTwo(m, n - 1);
      assert Iter(m, "a", n) == Iter(m, "b", n - 1);
    }
    WalkEndsExactly(m, "a");
  }

  lemma {:induction false} BetweenTwo(m: Links, n: nat)
    requires m == map["a" := "b", "b" := "c", "c" := "b"]
    ensures Iter(m, "b", n) in {"b", "c"} && Iter(m, "c", n) in {"b", "c"}
  {
    if n > 0 {
      BetweenTwo(m, n - 1);
    }
  }

  // The getter, on a payload

  /** "not a link" is the answer exactly for paths none of whose entries is a link. */
  method LinkTargetOf(payload: seq<Entry>, path: string) returns (r: Result<string>)
    requires Terminates(LinksOf(payload)) && "" !in LinksOf(payload)
    ensures r == Err(NotALink(path)) <==> forall e <- payload :: e.path == path ==> e.kind != LINK
    ensures r.Err? ==> r.error in {NotALink(path), LoopFound(path)}
    ensures (exists e <- payload :: e.path == path && e.kind == LINK) && (forall k <- LinksOf(payload) :: LinksOf(payload)[k] != "") ==>
              (r == Err(LoopFound(path)) <==> RunsIntoCycle(LinksOf(payload), path))
  {
    LinksArePresent(payload, path);
    if path in LinksOf(payload) && forall k <- LinksOf(payload) :: LinksOf(payload)[k] != "" {
      LoopFoundExactlyOnCycles(LinksOf(payload), path);
    }
    var cache := new Cache(payload);
    r := cache.GetEntryLinkTarget(path);
  }
}
