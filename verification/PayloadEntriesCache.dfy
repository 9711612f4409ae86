/** src/libappimage/utils/resources_extractor/PayloadEntriesCache.cpp: the entry types and the
    resolved link targets of a payload. */
module PayloadEntriesCache {
  import opened Names
  import opened LinkChains
  import opened Payload

  function TypesOf(payload: seq<Entry>): map<string, EntryType> {
    if payload == [] then map[] else
      var e := payload[|payload| - 1];
      TypesOf(payload[..|payload| - 1])[e.path := e.kind]
  }

  function LinksOf(payload: seq<Entry>): (m: Links)
    ensures m.Keys <= TypesOf(payload).Keys
  {
    if payload == [] then map[] else
      var e := payload[|payload| - 1];
      var before := LinksOf(payload[..|payload| - 1]);
      if e.kind == LINK then before[e.path := e.linkTarget] else before
  }

  /** One more entry at the end. */
  lemma Appended(payload: seq<Entry>, e: Entry)
    ensures TypesOf(payload + [e]) == TypesOf(payload)[e.path := e.kind]
    ensures LinksOf(payload + [e]) == if e.kind == LINK then LinksOf(payload)[e.path := e.linkTarget] else LinksOf(payload)
    ensures TypesOf([]) == map[] && LinksOf([]) == map[]
  {
    assert (payload + [e])[..|payload|] == payload;
  }

  lemma {:induction false} LinkTypesHaveTargets(payload: seq<Entry>, path: string)
    requires path in TypesOf(payload) && TypesOf(payload)[path] == LINK
    ensures path in LinksOf(payload)
  {
    var e := payload[|payload| - 1];
    if path != e.path {
      LinkTypesHaveTargets(payload[..|payload| - 1], path);
    }
  }

  /** The i-th entry is the last one of path. */
  ghost predicate LastEntry(payload: seq<Entry>, i: nat, path: string) {
    && i < |payload| && payload[i].path == path
    && forall j | i < j < |payload| :: payload[j].path != path
  }

  /** A path has a type if and only if there is an entry of it, and then that of the last. */
  lemma {:induction false} TypesAreOfLastEntries(payload: seq<Entry>, path: string)
    ensures path in TypesOf(payload) <==> exists e <- payload :: e.path == path
    ensures forall i: nat | LastEntry(payload, i, path) ::
              path in TypesOf(payload) && TypesOf(payload)[path] == payload[i].kind
  {
    if payload != [] {
      var front, last := payload[..|payload| - 1], |payload| - 1;
      TypesAreOfLastEntries(front, path);
      assert payload == front + [payload[last]];
      forall i: nat | LastEntry(payload, i, path)
        ensures path in TypesOf(payload) && TypesOf(payload)[path] == payload[i].kind
      {
        if i < last {
          assert LastEntry(front, i, path);
        }
      }
    }
  }

  /** The i-th entry is the last link of path. */
  ghost predicate LastLink(payload: seq<Entry>, i: nat, path: string) {
    && i < |payload| && payload[i].path == path && payload[i].kind == LINK
    && forall j | i < j < |payload| :: payload[j].path != path || payload[j].kind != LINK
  }

  /** A path has a link target if and only if one of its entries is a link, even if the last
      is not. */
  lemma {:induction false} LinksArePresent(payload: seq<Entry>, path: string)
    ensures path in LinksOf(payload) <==> exists e <- payload :: e.path == path && e.kind == LINK
  {
    if payload != [] {
      LinksArePresent(payload[..|payload| - 1], path);
      assert payload == payload[..|payload| - 1] + [payload[|payload| - 1]];
    }
  }

  /** It is that of the last link. */
  lemma {:induction false} LinksAreOfLastLinks(payload: seq<Entry>, i: nat, path: string)
    requires LastLink(payload, i, path)
    ensures path in LinksOf(payload) && LinksOf(payload)[path] == payload[i].linkTarget
  {
    if i < |payload| - 1 {
      LinksAreOfLastLinks(payload[..|payload| - 1], i, path);
    }
  }

  // The walk of resolveLinks

  /** The walk that starts at k comes to a name where it must stop: one that is not a link, k
      itself, or a link that was rewritten before k. */
  ghost predicate Stops(m: Links, k: string) {
    exists n: nat :: n > 0 && StopAt(m, k, Iter(m, k, n))
  }

  ghost predicate StopAt(m: Links, k: string, y: string) {
    y !in m || y == k || Less(y, k)
  }

  /** Every walk of resolveLinks stops. */
  ghost predicate Terminates(m: Links) {
    forall k <- m :: Stops(m, k)
  }

  ghost function Resolved(m: Links): (r: Links)
    ensures r.Keys == m.Keys
  {
    map k | k in m :: Resolve(m, k)
  }

  /** The cache when the outer loop has still to visit the keys in rest. */
  ghost predicate Partly(original: Links, current: Links, rest: set<string>) {
    && current.Keys == original.Keys
    && rest <= original.Keys
    && forall k <- original :: current[k] == if k in rest then original[k] else Resolve(original, k)
  }

  ghost predicate DoneBefore(m: Links, rest: set<string>) {
    forall j, k | j in m && j !in rest && k in rest :: Less(j, k)
  }

  lemma NotBefore(k: string, j: string)
    requires Less(k, j)
    ensures !Less(j, k)
  {
    if Less(j, k) {
      LessTransitive(k, j, k);
      LessIrreflexive(k);
    }
  }

  class Cache {
    var linksCache: Links
    var entriesCache: map<string, EntryType>

    /** buildCache. The caller must supply a payload on which the walk stops. */
    constructor (payload: seq<Entry>)
      requires Terminates(LinksOf(payload))
      requires "" !in LinksOf(payload)
      ensures entriesCache == TypesOf(payload)
      ensures linksCache == Resolved(LinksOf(payload))
    {
      linksCache := map[];
      entriesCache := map[];
      new;
      ReadAllEntries(payload);
      ResolveLinks();
    }

    method ReadAllEntries(payload: seq<Entry>)
      requires linksCache == map[] && entriesCache == map[]
      modifies this
      ensures entriesCache == TypesOf(payload)
      ensures linksCache == LinksOf(payload)
    {
      for i := 0 to |payload|
        invariant entriesCache == TypesOf(payload[..i])
        invariant linksCache == LinksOf(payload[..i])
      {
        assert payload[..i + 1][..i] == payload[..i];
        entriesCache := entriesCache[payload[i].path := payload[i].kind];
        if payload[i].kind == LINK {
          linksCache := linksCache[payload[i].path := payload[i].linkTarget];
        }
      }
      assert payload[..|payload|] == payload;
    }

    method ResolveLinks()
      requires Terminates(linksCache)
      requires "" !in linksCache
      modifies this`linksCache
      ensures linksCache == Resolved(old(linksCache))
    {
      ghost var original := linksCache;
      var rest := linksCache.Keys;
      while rest != {}
        invariant Partly(original, linksCache, rest)
        invariant DoneBefore(original, rest)
      {
        LeastExists(rest);
        var k :| IsLeast(k, rest);
        var target := FollowLinks(k, original, rest);
        linksCache := linksCache[k := target];
        rest := rest - {k};
      }
    }

    /** The body of the outer loop for the key k. */
    method FollowLinks(k: string, ghost original: Links, ghost rest: set<string>) returns (target: string)
      requires Partly(original, linksCache, rest) && DoneBefore(original, rest)
      requires IsLeast(k, rest)
      requires Stops(original, k) && "" !in original
      ensures target == Resolve(original, k)
    {
      target := linksCache[k];
      var jump := linksCache[k];
      ghost var stop: nat :| stop > 0 && StopAt(original, k, Iter(original, k, stop));
      ghost var i: nat := 1;
      IterNext(original, k, 0);
      while jump in linksCache && jump != k
        invariant target == jump && 1 <= i
        invariant jump == Iter(original, k, i) || (jump == Resolve(original, k) && jump !in original)
        invariant jump in original ==> i <= stop
        decreases if jump in original then stop - i + 1 else 0
      {
        target := linksCache[jump];
        if jump in rest {
          IterNext(original, k, i);
          NotBefore(k, jump);
        } else {
          ResolveAlong(original, k, i);
          ResolveLeavesMap(original, jump);
        }
        jump := linksCache[jump];
        i := i + 1;
      }
      if target == k {
        assert OnCycle(original, k);
        CycleNeverEnds(original, k);
        target := "";
      } else if target == Iter(original, k, i) {
        ResolveIs(original, k, i);
      }
    }

    method GetEntryType(path: string) returns (r: Result<EntryType>)
      ensures r == if path in entriesCache then Ok(entriesCache[path]) else Err(EntryDoesNotExist(path))
    {
      if path !in entriesCache {
        return Err(EntryDoesNotExist(path));
      }
      return Ok(entriesCache[path]);
    }

    method GetEntryLinkTarget(path: string) returns (r: Result<string>)
      ensures r == LinkTargetIn(linksCache, path)
    {
      if path !in linksCache {
        return Err(NotALink(path));
      }
      if linksCache[path] == "" {
        return Err(LoopFound(path));
      }
      return Ok(linksCache[path]);
    }
  }

  function LinkTargetIn(links: Links, path: string): Result<string> {
    if path !in links then Err(NotALink(path))
    else if links[path] == "" then Err(LoopFound(path))
    else Ok(links[path])
  }
}
