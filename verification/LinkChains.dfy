/** What it means to follow a chain of links, independently of how the cache is computed. */
module LinkChains {
  import opened Names

  type Links = map<string, string>

  /** The name reached from x after n jumps; the chain stays where it leaves the map. */
  ghost function Iter(m: Links, x: string, n: nat): string
    decreases n
  {
    if n == 0 || x !in m then x else Iter(m, m[x], n - 1)
  }

  /** The chain from x reaches a name that is not a link. */
  ghost predicate Ends(m: Links, x: string) {
    exists n: nat :: Iter(m, x, n) !in m
  }

  ghost predicate OnCycle(m: Links, x: string) {
    x in m && exists n: nat :: n > 0 && Iter(m, x, n) == x
  }

  ghost predicate RunsIntoCycle(m: Links, x: string) {
    exists n: nat :: OnCycle(m, Iter(m, x, n))
  }

  /** The first name on the chain from x that is not a link, or "" when there is none. */
  ghost function Resolve(m: Links, x: string): string {
    if Ends(m, x) then
      var n: nat :| Iter(m, x, n) !in m;
      Iter(m, x, n)
    else
      ""
  }

  lemma {:induction false} IterAdds(m: Links, x: string, i: nat, j: nat)
    ensures Iter(m, x, i + j) == Iter(m, Iter(m, x, i), j)
    decreases i
  {
    if i > 0 && x in m {
      IterAdds(m, m[x], i - 1, j);
    } else if x !in m {
      assert Iter(m, x, i) == x;
    }
  }

  lemma IterStays(m: Links, x: string, i: nat, j: nat)
    requires i <= j && Iter(m, x, i) !in m
    ensures Iter(m, x, j) == Iter(m, x, i)
  {
    IterAdds(m, x, i, j - i);
  }

  lemma ResolveIs(m: Links, x: string, n: nat)
    requires Iter(m, x, n) !in m
    ensures Ends(m, x) && Resolve(m, x) == Iter(m, x, n)
  {
    var k: nat :| Iter(m, x, k) !in m && Resolve(m, x) == Iter(m, x, k);
    if k <= n {
      IterStays(m, x, k, n);
    } else {
      IterStays(m, x, n, k);
    }
  }

  lemma ResolveAlong(m: Links, x: string, i: nat)
    ensures Ends(m, x) == Ends(m, Iter(m, x, i))
    ensures Resolve(m, x) == Resolve(m, Iter(m, x, i))
  {
    var y := Iter(m, x, i);
    if Ends(m, x) {
      var n: nat :| Iter(m, x, n) !in m;
      IterStays(m, x, n, n + i);
      IterAdds(m, x, i, n);
      ResolveIs(m, x, n);
      ResolveIs(m, y, n);
    }
    if Ends(m, y) {
      var n: nat :| Iter(m, y, n) !in m;
      IterAdds(m, x, i, n);
      assert Iter(m, x, i + n) !in m;
    }
  }

  lemma {:induction false} CycleRepeats(m: Links, x: string, period: nat, times: nat)
    requires Iter(m, x, period) == x
    ensures Iter(m, x, period * times) == x
  {
    if times > 0 {
      CycleRepeats(m, x, period, times - 1);
      IterAdds(m, x, period, period * (times - 1));
    }
  }

  lemma CycleNeverEnds(m: Links, x: string)
    requires OnCycle(m, x)
    ensures !Ends(m, x)
  {
    if Ends(m, x) {
      var n: nat :| Iter(m, x, n) !in m;
      var period: nat :| period > 0 && Iter(m, x, period) == x;
      CycleRepeats(m, x, period, n);
      assert period * n >= n;
      IterStays(m, x, n, period * n);
    }
  }

  lemma IterNext(m: Links, x: string, n: nat)
    requires Iter(m, x, n) in m
    ensures Iter(m, x, n + 1) == m[Iter(m, x, n)]
  {
    IterAdds(m, x, n, 1);
  }

  /** seen holds exactly the first n names of the chain. */
  ghost predicate FirstNames(m: Links, x: string, n: nat, seen: set<string>) {
    && (forall i: nat | i < n :: Iter(m, x, i) in seen)
    && (forall y <- seen :: exists i: nat :: i < n && Iter(m, x, i) == y)
  }

  /** A chain that never ends has more steps than there are links, so it repeats itself. */
  lemma FindCycle(m: Links, x: string, n: nat, seen: set<string>)
    requires !Ends(m, x)
    requires FirstNames(m, x, n, seen) && |seen| == n
    ensures RunsIntoCycle(m, x)
    decreases |m.Keys - seen|
  {
    var y := Iter(m, x, n);
    assert y in m;
    if y in seen {
      var i: nat :| i < n && Iter(m, x, i) == y;
      IterAdds(m, x, i, n - i);
      assert OnCycle(m, Iter(m, x, i));
    } else {
      assert m.Keys - seen == (m.Keys - (seen + {y})) + {y};
      FindCycle(m, x, n + 1, seen + {y});
    }
  }

  /** Every chain either ends or runs into a cycle, never both. */
  lemma EndsOrCycles(m: Links, x: string)
    ensures Ends(m, x) <==> !RunsIntoCycle(m, x)
  {
    if !Ends(m, x) {
      FindCycle(m, x, 0, {});
    }
    if RunsIntoCycle(m, x) {
      var n: nat :| OnCycle(m, Iter(m, x, n));
      CycleNeverEnds(m, Iter(m, x, n));
      ResolveAlong(m, x, n);
    }
  }

  /** The name Resolve gives is never a link, provided "" is not one. */
  lemma ResolveLeavesMap(m: Links, x: string)
    requires "" !in m
    ensures Resolve(m, x) !in m
  {
  }
}
