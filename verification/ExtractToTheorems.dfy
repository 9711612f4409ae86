/** extractTo of ResourcesExtractor against the single extraction. */
module ExtractToTheorems {
  import opened Payload
  import opened Files
  import opened PayloadEntriesCache
  import opened ResourcesExtractor

  /** No two sources share their resolved target or their destination. */
  ghost predicate Distinct(ix: Index, targets: map<string, string>) {
    forall j, k | j in targets && k in targets && j != k ::
      ix.TargetOf(j) != ix.TargetOf(k) && targets[j] != targets[k]
  }

  /** The last write to a destination decides what is there. */
  lemma {:induction false} PlanWrites(files: FileMap, payload: seq<Entry>, chosen: map<string, string>, t: string)
    requires t in chosen && forall u <- chosen :: u != t ==> chosen[u] != chosen[t]
    ensures var after := Apply(files, ExtractPlan(payload, chosen));
            match LastData(payload, t)
            case Some(data) => chosen[t] in after && after[chosen[t]] == data
            case None => (chosen[t] in after <==> chosen[t] in files)
                         && (chosen[t] in files ==> after[chosen[t]] == files[chosen[t]])
  {
    if payload != [] {
      PlanWrites(files, payload[..|payload| - 1], chosen, t);
      PlanAppends(files, payload, chosen);
    }
  }

  lemma PlanAppends(files: FileMap, payload: seq<Entry>, chosen: map<string, string>)
    requires payload != []
    ensures var e := payload[|payload| - 1];
            var before := Apply(files, ExtractPlan(payload[..|payload| - 1], chosen));
            Apply(files, ExtractPlan(payload, chosen))
            == if e.path in chosen then before[chosen[e.path] := e.data] else before
  {
    var e := payload[|payload| - 1];
    var plan := ExtractPlan(payload[..|payload| - 1], chosen);
    if e.path in chosen {
      assert (plan + [Write(chosen[e.path], e.data, EXTRACTION)])[..|plan|] == plan;
    } else {
      assert plan + [] == plan;
    }
  }

  lemma {:induction false} PlanOnlyWritesChosen(payload: seq<Entry>, chosen: map<string, string>, w: Write)
    requires w in ExtractPlan(payload, chosen)
    ensures exists t <- chosen :: chosen[t] == w.path
  {
    var e := payload[|payload| - 1];
    if w in ExtractPlan(payload[..|payload| - 1], chosen) {
      PlanOnlyWritesChosen(payload[..|payload| - 1], chosen, w);
    } else {
      assert e.path in chosen;
    }
  }

  /** s is a source that extractTo writes: its destination counts, and its target is in the
      payload. */
  ghost predicate IsWritten(payload: seq<Entry>, ix: Index, sources: set<string>, s: string) {
    && ix.TargetOf(s).Ok? && IsWinner(ix, sources, s, ix.TargetOf(s).value)
    && ix.TargetOf(s).value in TypesOf(payload)
  }

  ghost predicate WritesTo(plan: seq<Write>, path: string) { exists w <- plan :: w.path == path }

  lemma {:induction false} PlanPaths(payload: seq<Entry>, chosen: map<string, string>, path: string)
    ensures WritesTo(ExtractPlan(payload, chosen), path)
            <==> exists t <- chosen :: chosen[t] == path && t in TypesOf(payload)
  {
    if payload != [] {
      PlanPaths(payload[..|payload| - 1], chosen, path);
    }
  }

  /** The plan writes to exactly the destinations of these sources. */
  lemma PlanWritesExactly(payload: seq<Entry>, ix: Index, targets: map<string, string>, chosen: map<string, string>, path: string)
    requires AllResolve(ix, targets.Keys) && IsChosen(ix, targets, chosen)
    ensures WritesTo(ExtractPlan(payload, chosen), path)
            <==> exists s <- targets :: targets[s] == path && IsWritten(payload, ix, targets.Keys, s)
  {
    hide Index.TargetOf, IsWinner, WritesTo;
    PlanPaths(payload, chosen, path);
    if t :| t in chosen && chosen[t] == path && t in TypesOf(payload) {
      var s :| s in targets && IsWinner(ix, targets.Keys, s, t) && targets[s] == path;
      WinnerResolves(ix, targets.Keys, s, t);
      assert IsWritten(payload, ix, targets.Keys, s);
    }
    if s :| s in targets && targets[s] == path && IsWritten(payload, ix, targets.Keys, s) {
      var t := ix.TargetOf(s).value;
      WinnerGives(ix, targets, s, t);
      OneDestination(ix, targets, t);
    }
  }

  lemma WinnerResolves(ix: Index, sources: set<string>, s: string, t: string)
    requires IsWinner(ix, sources, s, t)
    ensures ix.TargetOf(s) == Ok(t)
  {
  }

  /** d holds the data of r, or what it held before when r is an error. */
  ghost predicate Delivered(after: FileMap, before: FileMap, d: string, r: Result<Bytes>) {
    match r
    case Ok(data) => d in after && after[d] == data
    case Err(_) => SameAt(after, before, d)
  }

  lemma DistinctChoice(ix: Index, targets: map<string, string>, chosen: map<string, string>, k: string)
    requires AllResolve(ix, targets.Keys) && IsChosen(ix, targets, chosen)
    requires Distinct(ix, targets) && k in targets
    ensures var t := ix.TargetOf(k).value;
            t in chosen && chosen[t] == targets[k] && forall u <- chosen :: u != t ==> chosen[u] != chosen[t]
  {
    hide Index.TargetOf;
    var t := ix.TargetOf(k).value;
    forall u <- chosen ensures exists s <- targets :: ix.TargetOf(s) == Ok(u) && chosen[u] == targets[s] {
      assert DestinationFor(ix, targets, u, chosen[u]);
    }
  }

  /** The source k arrives at its destination with the bytes of extract(k). */
  lemma ArrivesAtDestination(payload: seq<Entry>, ix: Index, targets: map<string, string>, chosen: map<string, string>, files: FileMap, k: string)
    requires AllResolve(ix, targets.Keys) && IsChosen(ix, targets, chosen)
    requires Distinct(ix, targets)
    requires k in targets && AtMostOnce(payload, ix.TargetOf(k).value)
    ensures Delivered(Apply(files, ExtractPlan(payload, chosen)), files, targets[k], Extracted(payload, ix, k))
  {
    hide Index.TargetOf, IsChosen, Distinct;
    var t := ix.TargetOf(k).value;
    DistinctChoice(ix, targets, chosen, k);
    OnceFirstIsLast(payload, t);
    PlanWrites(files, payload, chosen, t);
  }

  /** What extractTo does to the files when no write fails: each source whose target is in the
      payload arrives at its destination with the bytes of extract(source), and no other file
      changes. */
  lemma ExtractToMatchesExtract(payload: seq<Entry>, ix: Index, targets: map<string, string>, chosen: map<string, string>, files: FileMap)
    requires AllResolve(ix, targets.Keys) && IsChosen(ix, targets, chosen)
    requires Distinct(ix, targets)
    requires forall k <- targets :: AtMostOnce(payload, ix.TargetOf(k).value)
    ensures var after := Apply(files, ExtractPlan(payload, chosen));
            && (forall k <- targets :: Delivered(after, files, targets[k], Extracted(payload, ix, k)))
            && (forall d | d !in targets.Values :: SameAt(after, files, d))
  {
    hide Index.TargetOf, Delivered, Distinct, Extracted;
    var plan := ExtractPlan(payload, chosen);
    forall k <- targets
      ensures Delivered(Apply(files, plan), files, targets[k], Extracted(payload, ix, k))
    {
      ArrivesAtDestination(payload, ix, targets, chosen, files, k);
    }
    forall d | d !in targets.Values ensures SameAt(Apply(files, plan), files, d) {
      forall w <- plan ensures w.path != d {
        PlanOnlyWritesChosen(payload, chosen, w);
        ChosenAreDestinations(ix, targets, chosen);
      }
      ApplyTouches(files, plan, d);
    }
  }

  lemma ChosenAreDestinations(ix: Index, targets: map<string, string>, chosen: map<string, string>)
    requires IsChosen(ix, targets, chosen)
    ensures forall t <- chosen :: chosen[t] in targets.Values
  {
    forall t <- chosen ensures chosen[t] in targets.Values {
      assert DestinationFor(ix, targets, t, chosen[t]);
    }
  }

  // When every source is delivered

  ghost predicate DistinctDestinations(targets: map<string, string>) {
    forall j, k | j in targets && k in targets && j != k :: targets[j] != targets[k]
  }

  /** No two sources resolve to one target in the payload. */
  ghost predicate TargetsApart(payload: seq<Entry>, ix: Index, sources: set<string>) {
    forall j, k | j in sources && k in sources && j != k && ix.TargetOf(j) == ix.TargetOf(k) && ix.TargetOf(j).Ok? ::
      ix.TargetOf(j).value !in TypesOf(payload)
  }

  ghost predicate AllDelivered(payload: seq<Entry>, ix: Index, targets: map<string, string>, chosen: map<string, string>, files: FileMap) {
    forall k <- targets ::
      Delivered(Apply(files, ExtractPlan(payload, chosen)), files, targets[k], Extracted(payload, ix, k))
  }

  lemma OnlySourceIsDelivered(payload: seq<Entry>, ix: Index, targets: map<string, string>, chosen: map<string, string>, files: FileMap, k: string)
    requires AllResolve(ix, targets.Keys) && IsChosen(ix, targets, chosen)
    requires DistinctDestinations(targets) && TargetsApart(payload, ix, targets.Keys)
    requires k in targets && AtMostOnce(payload, ix.TargetOf(k).value)
    ensures Delivered(Apply(files, ExtractPlan(payload, chosen)), files, targets[k], Extracted(payload, ix, k))
  {
    hide Index.TargetOf, Apply, ExtractPlan, IsChosen;
    var t := ix.TargetOf(k).value;
    TypesAreOfLastEntries(payload, t);
    FirstDataPresent(payload, t);
    if t in TypesOf(payload) {
      OnlySourceIsChosen(payload, ix, targets, chosen, k);
      OnceFirstIsLast(payload, t);
      PlanWrites(files, payload, chosen, t);
    } else {
      var plan := ExtractPlan(payload, chosen);
      PlanWritesExactly(payload, ix, targets, chosen, targets[k]);
      assert forall w <- plan :: w.path != targets[k];
      ApplyTouches(files, plan, targets[k]);
    }
  }

  lemma OnlySourceIsChosen(payload: seq<Entry>, ix: Index, targets: map<string, string>, chosen: map<string, string>, k: string)
    requires AllResolve(ix, targets.Keys) && IsChosen(ix, targets, chosen)
    requires DistinctDestinations(targets) && TargetsApart(payload, ix, targets.Keys)
    requires k in targets && ix.TargetOf(k).value in TypesOf(payload)
    ensures var t := ix.TargetOf(k).value;
            t in chosen && chosen[t] == targets[k] && forall u <- chosen :: u != t ==> chosen[u] != chosen[t]
  {
    hide Index.TargetOf;
    var t := ix.TargetOf(k).value;
    forall u <- chosen ensures exists s <- targets :: ix.TargetOf(s) == Ok(u) && chosen[u] == targets[s] {
      assert DestinationFor(ix, targets, u, chosen[u]);
    }
  }

  /** The destination of a source that does not win its target is not written. */
  lemma LoserIsNotDelivered(payload: seq<Entry>, ix: Index, targets: map<string, string>, chosen: map<string, string>, k: string)
    requires AllResolve(ix, targets.Keys) && IsChosen(ix, targets, chosen) && DistinctDestinations(targets)
    requires k in targets && ix.TargetOf(k).value in TypesOf(payload)
    requires !IsWinner(ix, targets.Keys, k, ix.TargetOf(k).value)
    ensures !Delivered(Apply(map[], ExtractPlan(payload, chosen)), map[], targets[k], Extracted(payload, ix, k))
  {
    hide Index.TargetOf, Apply, ExtractPlan, IsChosen, IsWinner;
    var t, plan, none: FileMap := ix.TargetOf(k).value, ExtractPlan(payload, chosen), map[];
    TypesAreOfLastEntries(payload, t);
    FirstDataPresent(payload, t);
    PlanWritesExactly(payload, ix, targets, chosen, targets[k]);
    assert !WritesTo(plan, targets[k]);
    ApplyTouches(none, plan, targets[k]);
  }

  /** With different destinations, and targets that occur once, every source arrives whatever
      files there are if and only if no two sources resolve to one target in the payload: of
      two that do, only one is written. */
  lemma AllDeliveredExactly(payload: seq<Entry>, ix: Index, targets: map<string, string>, chosen: map<string, string>)
    requires AllResolve(ix, targets.Keys) && IsChosen(ix, targets, chosen) && DistinctDestinations(targets)
    requires forall k <- targets :: AtMostOnce(payload, ix.TargetOf(k).value)
    ensures (forall files :: AllDelivered(payload, ix, targets, chosen, files)) <==> TargetsApart(payload, ix, targets.Keys)
  {
    hide Index.TargetOf, Apply, ExtractPlan, IsChosen, IsWinner, Delivered, AtMostOnce, DistinctDestinations;
    if TargetsApart(payload, ix, targets.Keys) {
      forall files ensures AllDelivered(payload, ix, targets, chosen, files) {
        forall k <- targets
          ensures Delivered(Apply(files, ExtractPlan(payload, chosen)), files, targets[k], Extracted(payload, ix, k))
        {
          OnlySourceIsDelivered(payload, ix, targets, chosen, files, k);
        }
      }
    } else {
      var j, k :| j in targets && k in targets && j != k && ix.TargetOf(j) == ix.TargetOf(k) && ix.TargetOf(j).Ok?
                  && ix.TargetOf(j).value in TypesOf(payload);
      var t := ix.TargetOf(j).value;
      if IsWinner(ix, targets.Keys, j, t) && IsWinner(ix, targets.Keys, k, t) {
        OneWinner(ix, targets.Keys, j, k, t);
      }
      var loser := if IsWinner(ix, targets.Keys, j, t) then k else j;
      LoserIsNotDelivered(payload, ix, targets, chosen, loser);
      assert !AllDelivered(payload, ix, targets, chosen, map[]);
    }
  }
}
