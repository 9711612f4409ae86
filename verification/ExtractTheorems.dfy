/** extract of ResourcesExtractor in terms of the entries of a payload, and the order in which
    extractTo chooses destinations. */
module ExtractTheorems {
  import opened Names
  import opened Payload
  import opened Files
  import opened LinkChains
  import opened PayloadEntriesCache
  import opened ResourcesExtractor
  import LinkTheorems

  /** The i-th entry is the first one of path. */
  ghost predicate FirstEntry(payload: seq<Entry>, i: nat, path: string) {
    i < |payload| && payload[i].path == path && forall j | 0 <= j < i :: payload[j].path != path
  }

  lemma {:induction false} FirstDataIs(payload: seq<Entry>, i: nat, path: string)
    requires FirstEntry(payload, i, path)
    ensures FirstData(payload, path) == Some(payload[i].data)
  {
    if i > 0 {
      assert payload[0].path != path;
      assert forall j | 0 <= j < i - 1 :: payload[1..][j] == payload[j + 1];
      FirstDataIs(payload[1..], i - 1, path);
    }
  }

  lemma {:induction false} LastDataIs(payload: seq<Entry>, i: nat, path: string)
    requires LastEntry(payload, i, path)
    ensures LastData(payload, path) == Some(payload[i].data)
  {
    if i < |payload| - 1 {
      LastDataIs(payload[..|payload| - 1], i, path);
    }
  }

  /** A path without an entry. */
  lemma ExtractOfMissing(payload: seq<Entry>, path: string)
    requires forall e <- payload :: e.path != path
    ensures Extracted(payload, IndexOf(payload), path) == Err(EntryDoesNotExist(path))
  {
    TypesAreOfLastEntries(payload, path);
  }

  /** A path whose last entry is not a link: the data of the first. */
  lemma ExtractOfPlain(payload: seq<Entry>, path: string, first: nat, last: nat)
    requires FirstEntry(payload, first, path) && LastEntry(payload, last, path) && payload[last].kind != LINK
    ensures Extracted(payload, IndexOf(payload), path) == Ok(payload[first].data)
  {
    TypesAreOfLastEntries(payload, path);
    FirstDataIs(payload, first, path);
  }

  /** A link whose chain ends after n steps at an entry: the data of the first entry of that
      name; at no entry: an error that names the link. */
  lemma ExtractOfLink(payload: seq<Entry>, path: string, last: nat, n: nat)
    requires LastEntry(payload, last, path) && payload[last].kind == LINK
    requires var m := LinksOf(payload);
             "" !in m && (forall k <- m :: m[k] != "") && n > 0 && Iter(m, path, n) !in m
    ensures var end := Iter(LinksOf(payload), path, n);
            && (forall first: nat | FirstEntry(payload, first, end) ::
                  Extracted(payload, IndexOf(payload), path) == Ok(payload[first].data))
            && ((forall e <- payload :: e.path != end) ==>
                  Extracted(payload, IndexOf(payload), path) == Err(EntryDoesNotExist(path)))
  {
    hide Iter;
    var m := LinksOf(payload);
    var end := Iter(m, path, n);
    TypesAreOfLastEntries(payload, path);
    LinkTypesHaveTargets(payload, path);
    ResolveIs(m, path, n);
    LinkTheorems.EndIsNamed(m, path, n);
    assert IndexOf(payload).TargetOf(path) == Ok(end);
    FirstDataPresent(payload, end);
    forall first: nat | FirstEntry(payload, first, end)
      ensures Extracted(payload, IndexOf(payload), path) == Ok(payload[first].data)
    {
      FirstDataIs(payload, first, end);
    }
  }

  /** A link that runs into a cycle. */
  lemma ExtractOfLoop(payload: seq<Entry>, path: string, last: nat)
    requires LastEntry(payload, last, path) && payload[last].kind == LINK
    requires var m := LinksOf(payload);
             "" !in m && (forall k <- m :: m[k] != "") && RunsIntoCycle(m, path)
    ensures Extracted(payload, IndexOf(payload), path) == Err(LoopFound(path))
  {
    TypesAreOfLastEntries(payload, path);
    LinkTypesHaveTargets(payload, path);
    LinkTheorems.LoopFoundExactlyOnCycles(LinksOf(payload), path);
  }

  // Which destination counts

  /** A file and two links to it. */
  const LINKED := [Entry("f", REGULAR, "", "x"), Entry("l", LINK, "f", ""), Entry("m", LINK, "f", "")]

  lemma LinkedIndex()
    ensures TypesOf(LINKED) == map["f" := REGULAR, "l" := LINK, "m" := LINK]
    ensures LinksOf(LINKED) == map["l" := "f", "m" := "f"]
    ensures IndexOf(LINKED).links == map["l" := "f", "m" := "f"]
  {
    hide TypesOf, LinksOf;
    var f, l, m' := Entry("f", REGULAR, "", "x"), Entry("l", LINK, "f", ""), Entry("m", LINK, "f", "");
    Appended([], f);
    Appended([] + [f], l);
    Appended([] + [f] + [l], m');
    assert LINKED == [] + [f] + [l] + [m'];
    var m := map["l" := "f", "m" := "f"];
    assert Iter(m, "l", 1) == "f" && Iter(m, "m", 1) == "f";
    ResolveIs(m, "l", 1);
    ResolveIs(m, "m", 1);
  }

  /** Of the file itself and two links to it, the link that sorts last gives the destination,
      and the file is written there alone. */
  lemma LastLinkCounts()
    ensures var targets := map["f" := "1", "l" := "2", "m" := "3"];
            && IsChosen(IndexOf(LINKED), targets, map["f" := "3"])
            && ExtractPlan(LINKED, map["f" := "3"]) == [Write("3", "x", EXTRACTION)]
  {
    var ix, targets := IndexOf(LINKED), map["f" := "1", "l" := "2", "m" := "3"];
    LinkedIndex();
    assert ix.TargetOf("f") == ix.TargetOf("l") == ix.TargetOf("m") == Ok("f");
    assert Less("l", "m");
    assert IsWinner(ix, targets.Keys, "m", "f");
    WinnerGives(ix, targets, "m", "f");
    var two := LINKED[..2];
    var one := two[..1];
    assert two == [Entry("f", REGULAR, "", "x"), Entry("l", LINK, "f", "")];
    assert one == [Entry("f", REGULAR, "", "x")] && one[..0] == [];
    assert ExtractPlan(one, map["f" := "3"]) == [Write("3", "x", EXTRACTION)];
    assert ExtractPlan(two, map["f" := "3"]) == [Write("3", "x", EXTRACTION)];
  }

  /** Of two sources that do not resolve the one that sorts first is reported. */
  lemma FirstErrorIsLeast()
    ensures IsFirstError(IndexOf(LINKED), {"q", "p", "f"}, "p") && !IsFirstError(IndexOf(LINKED), {"q", "p", "f"}, "q")
    ensures IndexOf(LINKED).TargetOf("p") == Err(EntryDoesNotExist("p"))
  {
    LinkedIndex();
    assert Less("p", "q") && !Less("q", "p") && !Less("f", "f");
  }
}
