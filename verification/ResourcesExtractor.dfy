/** src/libappimage/utils/resources_extractor/ResourcesExtractor.cpp: reading payload entries
    by path, one at a time, in a batch, or straight into files. */
module ResourcesExtractor {
  import opened Names
  import opened LinkChains
  import opened Payload
  import opened PayloadEntriesCache
  import opened Files

  /** The caches of PayloadEntriesCache, as values. */
  datatype Index = Index(types: map<string, EntryType>, links: Links) {

    predicate IsLink(path: string) { path in types && types[path] == LINK }

    /** The entry that is read when path is asked for. */
    function TargetOf(path: string): Result<string> {
      if path !in types then Err(EntryDoesNotExist(path))
      else if types[path] == LINK then LinkTargetIn(links, path)
      else Ok(path)
    }
  }

  ghost function IndexOf(payload: seq<Entry>): Index {
    Index(TypesOf(payload), Resolved(LinksOf(payload)))
  }

  function FirstData(payload: seq<Entry>, path: string): Option<Bytes> {
    if payload == [] then None
    else if payload[0].path == path then Some(payload[0].data)
    else FirstData(payload[1..], path)
  }

  function LastData(payload: seq<Entry>, path: string): Option<Bytes> {
    if payload == [] then None
    else if payload[|payload| - 1].path == path then Some(payload[|payload| - 1].data)
    else LastData(payload[..|payload| - 1], path)
  }

  /** What extract(path) gives. */
  function Extracted(payload: seq<Entry>, ix: Index, path: string): Result<Bytes> {
    match ix.TargetOf(path)
    case Err(error) => Err(error)
    case Ok(target) =>
      match FirstData(payload, target)
      case Some(data) => Ok(data)
      case None => Err(EntryDoesNotExist(path))
  }

  /** The request that speaks last for target. */
  function LastRequest(ix: Index, paths: seq<string>, target: string): Option<string> {
    if paths == [] then None
    else if ix.TargetOf(paths[|paths| - 1]) == Ok(target) then Some(paths[|paths| - 1])
    else LastRequest(ix, paths[..|paths| - 1], target)
  }

  function FirstError(ix: Index, paths: seq<string>): Option<Error> {
    if paths == [] then None
    else match ix.TargetOf(paths[0])
      case Err(error) => Some(error)
      case Ok(_) => FirstError(ix, paths[1..])
  }

  /** The i-th request is the first without a target. */
  ghost predicate FailsAt(ix: Index, paths: seq<string>, i: nat, e: Error) {
    i < |paths| && ix.TargetOf(paths[i]) == Err(e) && forall j | 0 <= j < i :: ix.TargetOf(paths[j]).Ok?
  }

  ghost predicate Fails(ix: Index, paths: seq<string>, e: Error) { exists i: nat :: FailsAt(ix, paths, i, e) }

  lemma {:induction false} FirstErrorExactly(ix: Index, paths: seq<string>, e: Error)
    ensures FirstError(ix, paths) == Some(e) <==> Fails(ix, paths, e)
  {
    hide Index.TargetOf;
    if paths != [] {
      var rest := paths[1..];
      FirstErrorExactly(ix, rest, e);
      if ix.TargetOf(paths[0]).Ok? {
        if i: nat :| FailsAt(ix, rest, i, e) {
          assert forall j | 0 <= j < i + 1 :: j == 0 || paths[j] == rest[j - 1];
          assert FailsAt(ix, paths, i + 1, e);
        }
        if i: nat :| FailsAt(ix, paths, i, e) {
          assert i > 0 && forall j | 0 <= j < i :: rest[j] == paths[j + 1];
          assert FailsAt(ix, rest, i - 1, e);
        }
      } else {
        assert FailsAt(ix, paths, 0, ix.TargetOf(paths[0]).error);
      }
    }
  }

  /** p is answered by a batch for paths, reading payload. */
  predicate Answered(ix: Index, paths: seq<string>, read: seq<Entry>, p: string) {
    match ix.TargetOf(p)
    case Err(_) => false
    case Ok(target) =>
      LastRequest(ix, paths, target) == Some(p) && LastData(read, target).Some?
  }

  class Extractor {
    const payload: seq<Entry>
    const cache: Cache

    ghost predicate Valid()
      reads cache
    {
      && cache.entriesCache == TypesOf(payload)
      && cache.linksCache == Resolved(LinksOf(payload))
    }

    constructor (payload: seq<Entry>)
      requires Terminates(LinksOf(payload))
      requires "" !in LinksOf(payload)
      ensures Valid() && this.payload == payload && fresh(cache)
    {
      this.payload := payload;
      cache := new Cache(payload);
    }

    method RegularEntryPath(path: string) returns (r: Result<string>)
      requires Valid()
      ensures r == IndexOf(payload).TargetOf(path)
    {
      var kind := cache.GetEntryType(path);
      if kind.Err? {
        return Err(kind.error);
      }
      if kind.value == LINK {
        r := cache.GetEntryLinkTarget(path);
      } else {
        r := Ok(path);
      }
    }

    method Extract(path: string) returns (r: Result<Bytes>)
      requires Valid()
      ensures r == Extracted(payload, IndexOf(payload), path)
    {
      var target := RegularEntryPath(path);
      if target.Err? {
        return Err(target.error);
      }
      for i := 0 to |payload|
        invariant FirstData(payload, target.value) == FirstData(payload[i..], target.value)
      {
        if payload[i].path == target.value {
          return Ok(payload[i].data);
        }
      }
      return Err(EntryDoesNotExist(path));
    }

    /** The batch form of extract. */
    method ExtractAll(paths: seq<string>) returns (r: Result<map<string, Bytes>>)
      requires Valid()
      ensures var ix := IndexOf(payload);
              match FirstError(ix, paths)
              case Some(error) => r == Err(error)
              case None => r.Ok? && IsBatch(ix, paths, payload, r.value)
      ensures forall e :: r == Err(e) <==> Fails(IndexOf(payload), paths, e)
    {
      hide FirstError, Fails, IsBatch, IsReverse;
      forall e ensures Fails(IndexOf(payload), paths, e) <==> FirstError(IndexOf(payload), paths) == Some(e) {
        FirstErrorExactly(IndexOf(payload), paths, e);
      }
      var reverseLinks := ReverseLinks(paths);
      if reverseLinks.Err? {
        return Err(reverseLinks.error);
      }
      var found := ReadRequested(paths, reverseLinks.value);
      return Ok(found);
    }

    method ReverseLinks(paths: seq<string>) returns (r: Result<map<string, string>>)
      requires Valid()
      ensures var ix := IndexOf(payload);
              match FirstError(ix, paths)
              case Some(error) => r == Err(error)
              case None => r.Ok? && IsReverse(ix, paths, r.value)
    {
      ghost var ix := IndexOf(payload);
      var reverse: map<string, string> := map[];
      for i := 0 to |paths|
        invariant FirstError(ix, paths) == FirstError(ix, paths[i..])
        invariant IsReverse(ix, paths[..i], reverse)
      {
        var target := RegularEntryPath(paths[i]);
        if target.Err? {
          return Err(target.error);
        }
        assert paths[..i + 1][..i] == paths[..i];
        reverse := reverse[target.value := paths[i]];
      }
      assert paths[..|paths|] == paths;
      return Ok(reverse);
    }

    method ReadRequested(ghost paths: seq<string>, reverse: map<string, string>) returns (found: map<string, Bytes>)
      requires IsReverse(IndexOf(payload), paths, reverse)
      ensures IsBatch(IndexOf(payload), paths, payload, found)
    {
      hide Index.TargetOf, IsBatch;
      ghost var ix := IndexOf(payload);
      found := map[];
      EmptyBatch(ix, paths);
      for i := 0 to |payload|
        invariant IsBatch(ix, paths, payload[..i], found)
      {
        assert payload[..i + 1][..i] == payload[..i];
        var path := payload[i].path;
        BatchGrows(ix, paths, payload[..i + 1], found);
        if path in reverse {
          found := found[reverse[path] := payload[i].data];
        }
      }
      assert payload[..|payload|] == payload;
    }

    /** extractTo: each entry of the payload that some source resolves to is written to the
        destination chosen for it. */
    method ExtractTo(targets: map<string, string>, fs: FileSystem) returns (error: Option<Error>)
      requires Valid() && fs as object != cache
      modifies fs
      ensures var ix := IndexOf(payload);
              if AllResolve(ix, targets.Keys) then
                && error in {None, Some(FileSystemError)}
                && exists chosen ::
                     && IsChosen(ix, targets, chosen)
                     && Progress(fs.files, fs.count, error.Some?)
                        == Carry(old(fs.files), ExtractPlan(payload, chosen), fs.faults, old(fs.count))
              else
                fs.files == old(fs.files) && fs.count == old(fs.count)
                && exists k <- targets :: IsFirstError(ix, targets.Keys, k) && error == Some(ix.TargetOf(k).error)
    {
      var chosen := RealTargets(targets);
      if chosen.Err? {
        return Some(chosen.error);
      }
      error := WriteEntries(chosen.value, fs);
    }

    /** The destinations by resolved target. A link overwrites, a plain entry is inserted only
        if there is none yet. */
    method RealTargets(targets: map<string, string>) returns (r: Result<map<string, string>>)
      requires Valid()
      ensures var ix := IndexOf(payload);
              match r
              case Ok(chosen) => AllResolve(ix, targets.Keys) && IsChosen(ix, targets, chosen)
              case Err(error) =>
                exists k <- targets :: IsFirstError(ix, targets.Keys, k) && error == ix.TargetOf(k).error
    {
      ghost var ix := IndexOf(payload);
      hide Index.TargetOf;
      var chosen: map<string, string> := map[];
      var rest := targets.Keys;
      ghost var done: map<string, string> := map[];
      while rest != {}
        invariant rest !! done.Keys && rest + done.Keys == targets.Keys
        invariant forall k <- done :: done[k] == targets[k]
        invariant forall j, k | j in done && k in rest :: Less(j, k)
        invariant AllResolve(ix, done.Keys)
        invariant IsChosen(ix, done, chosen)
      {
        LeastExists(rest);
        var k :| IsLeast(k, rest);
        var target := RegularEntryPath(k);
        if target.Err? {
          forall j | Less(j, k) ensures j !in rest {
            if j in rest {
              NotBefore(j, k);
              LessIrreflexive(k);
            }
          }
          assert IsFirstError(ix, targets.Keys, k);
          return Err(target.error);
        }
        var kind := cache.GetEntryType(k);
        PlainIsOwnTarget(ix, k);
        if kind.value == LINK {
          AddLink(ix, done, chosen, k, targets[k]);
          chosen := chosen[target.value := targets[k]];
        } else {
          AddPlain(ix, done, chosen, k, targets[k]);
          if k !in chosen {
            chosen := chosen[k := targets[k]];
          }
        }
        done := done[k := targets[k]];
        rest := rest - {k};
      }
      assert done == targets;
      return Ok(chosen);
    }

    method WriteEntries(chosen: map<string, string>, fs: FileSystem) returns (error: Option<Error>)
      modifies fs
      ensures error in {None, Some(FileSystemError)}
      ensures Progress(fs.files, fs.count, error.Some?)
              == Carry(old(fs.files), ExtractPlan(payload, chosen), fs.faults, old(fs.count))
    {
      hide Carry;
      ghost var files, count := fs.files, fs.count;
      NothingCarried(files, fs.faults, count);
      for i := 0 to |payload|
        invariant Progress(fs.files, fs.count, false) == Carry(files, ExtractPlan(payload[..i], chosen), fs.faults, count)
      {
        assert payload[..i + 1][..i] == payload[..i];
        ghost var done := ExtractPlan(payload[..i], chosen);
        assert payload[i].path !in chosen ==> ExtractPlan(payload[..i + 1], chosen) == done + [] == done;
        if payload[i].path in chosen {
          ghost var write := Write(chosen[payload[i].path], payload[i].data, EXTRACTION);
          PlanGrows(payload, chosen, i);
          CarryConcat(files, done, [write], fs.faults, count);
          var raised := fs.Put(chosen[payload[i].path], payload[i].data, EXTRACTION);
          if raised {
            ghost var plan := ExtractPlan(payload, chosen);
            assert plan == (done + [write]) + plan[|done| + 1..];
            CarryConcat(files, done + [write], plan[|done| + 1..], fs.faults, count);
            return Some(FileSystemError);
          }
        }
      }
      assert payload[..|payload|] == payload;
      return None;
    }
  }

  ghost predicate AllResolve(ix: Index, sources: set<string>) {
    forall k <- sources :: ix.TargetOf(k).Ok?
  }

  /** k is the first source in key order that does not resolve. */
  ghost predicate IsFirstError(ix: Index, sources: set<string>, k: string) {
    && k in sources && ix.TargetOf(k).Err?
    && forall j <- sources :: Less(j, k) ==> ix.TargetOf(j).Ok?
  }

  /** Of the sources that resolve to t, s is the one whose destination counts: a link before a
      plain entry, and among links the last in key order. */
  ghost predicate IsWinner(ix: Index, sources: set<string>, s: string, t: string) {
    && s in sources && ix.TargetOf(s) == Ok(t)
    && forall j <- sources :: j != s && ix.TargetOf(j) == Ok(t)
                              ==> ix.IsLink(s) && (ix.IsLink(j) ==> Less(j, s))
  }

  ghost predicate DestinationFor(ix: Index, targets: map<string, string>, t: string, d: string) {
    exists s <- targets :: IsWinner(ix, targets.Keys, s, t) && targets[s] == d
  }

  ghost predicate IsChosen(ix: Index, targets: map<string, string>, chosen: map<string, string>) {
    && (forall s <- targets :: ix.TargetOf(s).Ok? ==> ix.TargetOf(s).value in chosen)
    && forall t <- chosen :: DestinationFor(ix, targets, t, chosen[t])
  }

  /** There is only one such choice. */
  lemma ChosenIsUnique(ix: Index, targets: map<string, string>, a: map<string, string>, b: map<string, string>)
    requires IsChosen(ix, targets, a) && IsChosen(ix, targets, b)
    ensures a == b
  {
    hide Index.TargetOf;
    forall t | t in a || t in b ensures t in a && t in b && a[t] == b[t] {
      assert DestinationFor(ix, targets, t, if t in a then a[t] else b[t]);
      OneDestination(ix, targets, t);
    }
  }

  lemma OneDestination(ix: Index, targets: map<string, string>, t: string)
    ensures forall d, e | DestinationFor(ix, targets, t, d) && DestinationFor(ix, targets, t, e) :: d == e
  {
    forall r, s | IsWinner(ix, targets.Keys, r, t) && IsWinner(ix, targets.Keys, s, t) ensures r == s {
      OneWinner(ix, targets.Keys, r, s, t);
    }
  }

  lemma OneWinner(ix: Index, sources: set<string>, j: string, k: string, t: string)
    requires IsWinner(ix, sources, j, t) && IsWinner(ix, sources, k, t)
    ensures j == k
  {
    if j != k {
      NotBefore(j, k);
    }
  }

  /** And if all sources resolve there is one. */
  lemma {:induction false} ChosenExists(ix: Index, targets: map<string, string>)
    requires AllResolve(ix, targets.Keys)
    ensures exists c :: IsChosen(ix, targets, c)
    decreases |targets|
  {
    hide Index.TargetOf, IsChosen;
    if targets == map[] {
      NoneChosen(ix);
    } else {
      GreatestExists(targets.Keys);
      var k :| IsGreatest(k, targets.Keys);
      var done := targets - {k};
      assert done[k := targets[k]] == targets;
      ChosenExists(ix, done);
      var chosen :| IsChosen(ix, done, chosen);
      PlainIsOwnTarget(ix, k);
      if ix.IsLink(k) {
        AddLink(ix, done, chosen, k, targets[k]);
      } else {
        AddPlain(ix, done, chosen, k, targets[k]);
      }
    }
  }

  lemma NoneChosen(ix: Index)
    ensures IsChosen(ix, map[], map[])
  {
  }

  ghost function Chosen(ix: Index, targets: map<string, string>): map<string, string> {
    if exists c :: IsChosen(ix, targets, c) then (var c :| IsChosen(ix, targets, c); c) else map[]
  }

  function ExtractPlan(payload: seq<Entry>, chosen: map<string, string>): seq<Write> {
    if payload == [] then [] else
      var e := payload[|payload| - 1];
      ExtractPlan(payload[..|payload| - 1], chosen) + if e.path in chosen then [Write(chosen[e.path], e.data, EXTRACTION)] else []
  }

  /** reverse sends each target to the request that speaks last for it. */
  ghost predicate IsReverse(ix: Index, paths: seq<string>, reverse: map<string, string>) {
    && (forall t :: t in reverse <==> LastRequest(ix, paths, t).Some?)
    && (forall t <- reverse :: Some(reverse[t]) == LastRequest(ix, paths, t))
  }

  /** found is the answer to paths when the entries of read have been seen. */
  ghost predicate IsBatch(ix: Index, paths: seq<string>, read: seq<Entry>, found: map<string, Bytes>) {
    && (forall p :: p in found <==> Answered(ix, paths, read, p))
    && (forall p <- found :: Some(found[p]) == LastData(read, ix.TargetOf(p).value))
  }

  lemma EmptyBatch(ix: Index, paths: seq<string>)
    ensures IsBatch(ix, paths, [], map[])
  {
  }

  /** One more entry answers the request that speaks last for its path. */
  lemma BatchGrows(ix: Index, paths: seq<string>, read: seq<Entry>, found: map<string, Bytes>)
    requires read != [] && IsBatch(ix, paths, read[..|read| - 1], found)
    ensures var e := read[|read| - 1];
            match LastRequest(ix, paths, e.path)
            case None => IsBatch(ix, paths, read, found)
            case Some(p) => IsBatch(ix, paths, read, found[p := e.data])
  {
    hide Index.TargetOf, LastRequest;
    LastRequestResolves(ix, paths, read[|read| - 1].path);
  }

  lemma {:induction false} LastRequestResolves(ix: Index, paths: seq<string>, target: string)
    ensures match LastRequest(ix, paths, target)
            case None => true
            case Some(p) => ix.TargetOf(p) == Ok(target)
  {
    if paths != [] && ix.TargetOf(paths[|paths| - 1]) != Ok(target) {
      LastRequestResolves(ix, paths[..|paths| - 1], target);
    }
  }

  lemma PlainIsOwnTarget(ix: Index, path: string)
    ensures ix.TargetOf(path).Ok? ==> path in ix.types
    ensures ix.TargetOf(path).Ok? && !ix.IsLink(path) ==> ix.TargetOf(path) == Ok(path)
  {
  }

  lemma {:induction false} PlanGrows(payload: seq<Entry>, chosen: map<string, string>, i: nat)
    requires i < |payload| && payload[i].path in chosen
    ensures ExtractPlan(payload[..i], chosen) + [Write(chosen[payload[i].path], payload[i].data, EXTRACTION)] <= ExtractPlan(payload, chosen)
  {
    if i == |payload| - 1 {
    } else {
      PlanGrows(payload[..|payload| - 1], chosen, i);
      assert payload[..|payload| - 1][..i] == payload[..i];
    }
  }

  lemma AddLink(ix: Index, done: map<string, string>, chosen: map<string, string>, k: string, destination: string)
    requires IsChosen(ix, done, chosen) && k !in done
    requires ix.IsLink(k) && ix.TargetOf(k).Ok?
    requires forall j <- done :: Less(j, k)
    ensures IsChosen(ix, done[k := destination], chosen[ix.TargetOf(k).value := destination])
  {
    hide Index.TargetOf, Index.IsLink, IsWinner, DestinationFor;
    var target := ix.TargetOf(k).value;
    assert DestinationFor(ix, done[k := destination], target, destination) by {
      LastLinkWins(ix, done, k, destination);
    }
    forall t | t in chosen && t != target
      ensures DestinationFor(ix, done[k := destination], t, chosen[t])
    {
      DestinationStays(ix, done, t, chosen[t], k, destination);
    }
  }

  lemma AddPlain(ix: Index, done: map<string, string>, chosen: map<string, string>, k: string, destination: string)
    requires IsChosen(ix, done, chosen) && k !in done
    requires !ix.IsLink(k) && ix.TargetOf(k) == Ok(k)
    ensures IsChosen(ix, done[k := destination], if k in chosen then chosen else chosen[k := destination])
  {
    hide Index.TargetOf, Index.IsLink, IsWinner, DestinationFor;
    forall t <- chosen
      ensures DestinationFor(ix, done[k := destination], t, chosen[t])
    {
      DestinationStays(ix, done, t, chosen[t], k, destination);
    }
    if k !in chosen {
      OnlySourceWins(ix, done, chosen, k, destination);
    }
  }

  lemma LastLinkWins(ix: Index, done: map<string, string>, k: string, destination: string)
    requires ix.IsLink(k) && ix.TargetOf(k).Ok?
    requires forall j <- done :: Less(j, k)
    ensures DestinationFor(ix, done[k := destination], ix.TargetOf(k).value, destination)
  {
    hide Index.TargetOf, Index.IsLink;
    assert done[k := destination].Keys == done.Keys + {k};
    assert IsWinner(ix, done.Keys + {k}, k, ix.TargetOf(k).value);
  }

  /** A new source changes nothing for other targets, nor does a plain one for any target. */
  lemma DestinationStays(ix: Index, done: map<string, string>, t: string, d: string, k: string, destination: string)
    requires DestinationFor(ix, done, t, d) && k !in done
    requires ix.TargetOf(k) != Ok(t) || (!ix.IsLink(k) && ix.TargetOf(k) == Ok(k))
    ensures DestinationFor(ix, done[k := destination], t, d)
  {
    hide Index.TargetOf, Index.IsLink;
    var s :| s in done && IsWinner(ix, done.Keys, s, t) && done[s] == d;
    PlainIsOwnTarget(ix, s);
    assert done[k := destination].Keys == done.Keys + {k};
    assert IsWinner(ix, done.Keys + {k}, s, t);
  }

  lemma OnlySourceWins(ix: Index, done: map<string, string>, chosen: map<string, string>, k: string, destination: string)
    requires IsChosen(ix, done, chosen) && k !in chosen
    requires ix.TargetOf(k) == Ok(k)
    ensures DestinationFor(ix, done[k := destination], k, destination)
  {
    hide Index.TargetOf, Index.IsLink, DestinationFor;
    assert forall j <- done :: ix.TargetOf(j) != Ok(k);
    assert done[k := destination].Keys == done.Keys + {k};
    assert IsWinner(ix, done.Keys + {k}, k, k);
    WinnerGives(ix, done[k := destination], k, k);
  }

  lemma WinnerGives(ix: Index, targets: map<string, string>, s: string, t: string)
    requires IsWinner(ix, targets.Keys, s, t)
    ensures DestinationFor(ix, targets, t, targets[s])
  {
  }

  // The batch against the single extraction

  /** No request after the i-th resolves to target. */
  ghost predicate LastAt(ix: Index, paths: seq<string>, i: nat, target: string) {
    i < |paths| && forall j :: i < j < |paths| ==> ix.TargetOf(paths[j]) != Ok(target)
  }

  /** LastRequest is what its name says. */
  lemma {:induction false} LastRequestIsLast(ix: Index, paths: seq<string>, p: string, target: string)
    requires ix.TargetOf(p) == Ok(target)
    ensures LastRequest(ix, paths, target) == Some(p)
            <==> exists i: nat :: LastAt(ix, paths, i, target) && paths[i] == p
  {
    hide Index.TargetOf;
    if paths != [] {
      var last := |paths| - 1;
      if ix.TargetOf(paths[last]) == Ok(target) {
        assert LastAt(ix, paths, last, target);
      } else {
        LastRequestIsLast(ix, paths[..last], p, target);
        if i: nat :| LastAt(ix, paths[..last], i, target) && paths[..last][i] == p {
          assert LastAt(ix, paths, i, target);
        }
        if i: nat :| LastAt(ix, paths, i, target) && paths[i] == p {
          assert LastAt(ix, paths[..last], i, target);
        }
      }
    }
  }

  lemma {:induction false} FirstDataPresent(payload: seq<Entry>, path: string)
    ensures FirstData(payload, path).Some? <==> exists e <- payload :: e.path == path
  {
    if payload != [] {
      FirstDataPresent(payload[1..], path);
      assert payload == [payload[0]] + payload[1..];
    }
  }

  lemma {:induction false} LastDataPresent(payload: seq<Entry>, path: string)
    ensures LastData(payload, path).Some? <==> exists e <- payload :: e.path == path
  {
    if payload != [] {
      LastDataPresent(payload[..|payload| - 1], path);
      assert payload == payload[..|payload| - 1] + [payload[|payload| - 1]];
    }
  }

  /** No two entries have this path. */
  ghost predicate AtMostOnce(payload: seq<Entry>, path: string) {
    forall i, j :: 0 <= i < j < |payload| && payload[i].path == path ==> payload[j].path != path
  }

  lemma {:induction false} OnceFirstIsLast(payload: seq<Entry>, path: string)
    requires AtMostOnce(payload, path)
    ensures FirstData(payload, path) == LastData(payload, path)
  {
    FirstIs(payload, path);
    LastIs(payload, path);
  }

  lemma {:induction false} FirstIs(payload: seq<Entry>, path: string)
    ensures forall i :: 0 <= i < |payload| && payload[i].path == path && AtMostOnce(payload, path)
                        ==> FirstData(payload, path) == Some(payload[i].data)
    ensures (forall e <- payload :: e.path != path) ==> FirstData(payload, path) == None
  {
    if payload != [] {
      FirstIs(payload[1..], path);
    }
  }

  lemma {:induction false} LastIs(payload: seq<Entry>, path: string)
    ensures forall i :: 0 <= i < |payload| && payload[i].path == path && AtMostOnce(payload, path)
                        ==> LastData(payload, path) == Some(payload[i].data)
    ensures (forall e <- payload :: e.path != path) ==> LastData(payload, path) == None
  {
    if payload != [] {
      LastIs(payload[..|payload| - 1], path);
    }
  }

  /** Every path that the batch answers is answered as extract(path) would. */
  ghost predicate Agrees(payload: seq<Entry>, ix: Index, found: map<string, Bytes>) {
    forall p <- found :: Extracted(payload, ix, p) == Ok(found[p])
  }

  lemma AnsweredAsSingle(payload: seq<Entry>, ix: Index, paths: seq<string>, found: map<string, Bytes>, p: string)
    requires IsBatch(ix, paths, payload, found) && p in found
    ensures ix.TargetOf(p).Ok? && LastData(payload, ix.TargetOf(p).value) == Some(found[p])
    ensures Extracted(payload, ix, p) == Ok(found[p])
            <==> FirstData(payload, ix.TargetOf(p).value) == LastData(payload, ix.TargetOf(p).value)
  {
    FirstDataPresent(payload, ix.TargetOf(p).value);
    LastDataPresent(payload, ix.TargetOf(p).value);
  }

  /** p has a type, and it is not that of a link. */
  predicate IsPlain(payload: seq<Entry>, p: string) { p in TypesOf(payload) && TypesOf(payload)[p] != LINK }

  /** Of the names in the payload only those that are not links are resolved targets. */
  lemma TargetIsPlain(payload: seq<Entry>, p: string, t: string)
    requires "" !in LinksOf(payload) && IndexOf(payload).TargetOf(p) == Ok(t) && t in TypesOf(payload)
    ensures IsPlain(payload, t)
  {
    if IndexOf(payload).IsLink(p) {
      LinkTypesHaveTargets(payload, p);
      ResolveLeavesMap(LinksOf(payload), p);
    }
    if TypesOf(payload)[t] == LINK {
      LinkTypesHaveTargets(payload, t);
    }
  }

  /** Batch and single extraction agree on every request list if and only if the first and the
      last entry of each path that is not a link hold the same data. */
  lemma BatchRefinesSingle(payload: seq<Entry>)
    requires "" !in LinksOf(payload)
    ensures (forall paths, found | IsBatch(IndexOf(payload), paths, payload, found) ::
               Agrees(payload, IndexOf(payload), found))
            <==> forall t | IsPlain(payload, t) :: FirstData(payload, t) == LastData(payload, t)
  {
    hide IsBatch, IndexOf, Index.TargetOf;
    var ix := IndexOf(payload);
    if forall t | IsPlain(payload, t) :: FirstData(payload, t) == LastData(payload, t) {
      forall paths, found, p | IsBatch(ix, paths, payload, found) && p in found
        ensures Extracted(payload, ix, p) == Ok(found[p])
      {
        AnsweredAsSingle(payload, ix, paths, found, p);
        var t := ix.TargetOf(p).value;
        LastDataPresent(payload, t);
        TypesAreOfLastEntries(payload, t);
        TargetIsPlain(payload, p, t);
      }
    } else {
      var t :| IsPlain(payload, t) && FirstData(payload, t) != LastData(payload, t);
      TypesAreOfLastEntries(payload, t);
      LastDataPresent(payload, t);
      SingleRequest(payload, t);
      AnsweredAsSingle(payload, ix, [t], map[t := LastData(payload, t).value], t);
      assert !Agrees(payload, ix, map[t := LastData(payload, t).value]);
    }
  }

  lemma SingleRequest(payload: seq<Entry>, t: string)
    requires IsPlain(payload, t) && LastData(payload, t).Some?
    ensures IndexOf(payload).TargetOf(t) == Ok(t)
    ensures IsBatch(IndexOf(payload), [t], payload, map[t := LastData(payload, t).value])
  {
    var ix := IndexOf(payload);
    forall p ensures p == t <==> Answered(ix, [t], payload, p) {
      if ix.TargetOf(p).Ok? {
        OnlyRequest(ix, t, ix.TargetOf(p).value);
      }
    }
  }

  lemma OnlyRequest(ix: Index, p: string, target: string)
    ensures LastRequest(ix, [p], target) == if ix.TargetOf(p) == Ok(target) then Some(p) else None
  {
    assert [p][..0] == [];
  }

  const TWICE := [Entry("a", REGULAR, "", "x"), Entry("a", REGULAR, "", "y")]

  /** With two entries of one path the batch gives the last and extract the first. */
  lemma DuplicatesAreReadDifferently()
    ensures Extracted(TWICE, IndexOf(TWICE), "a") == Ok("x")
    ensures IsBatch(IndexOf(TWICE), ["a"], TWICE, map["a" := "y"])
  {
    assert TypesOf(TWICE) == map["a" := REGULAR] by {
      assert TWICE[..1][..0] == [];
    }
    SingleRequest(TWICE, "a");
  }

  /** In particular they agree when no target occurs twice; and then the answered paths are those that are
      last requested for their target and whose target is in the payload. */
  lemma BatchOfUniqueTargets(payload: seq<Entry>, ix: Index, paths: seq<string>, found: map<string, Bytes>)
    requires IsBatch(ix, paths, payload, found)
    requires forall p <- paths :: ix.TargetOf(p).Ok?
    requires forall p <- paths :: AtMostOnce(payload, ix.TargetOf(p).value)
    ensures forall p :: p in found <==> LastForTarget(ix, paths, p) && Extracted(payload, ix, p).Ok?
    ensures forall p <- found :: Extracted(payload, ix, p) == Ok(found[p])
  {
    forall p ensures p in found <==> LastForTarget(ix, paths, p) && Extracted(payload, ix, p).Ok? {
      AnsweredExactly(payload, ix, paths, p);
    }
    forall p <- found ensures Extracted(payload, ix, p) == Ok(found[p]) {
      AnsweredExactly(payload, ix, paths, p);
      OnceFirstIsLast(payload, ix.TargetOf(p).value);
      AnsweredAsSingle(payload, ix, paths, found, p);
    }
  }

  /** p is requested, and no later request resolves to the same target. */
  ghost predicate LastForTarget(ix: Index, paths: seq<string>, p: string) {
    match ix.TargetOf(p)
    case Err(_) => false
    case Ok(target) => exists i: nat :: LastAt(ix, paths, i, target) && paths[i] == p
  }

  lemma AnsweredExactly(payload: seq<Entry>, ix: Index, paths: seq<string>, p: string)
    ensures Answered(ix, paths, payload, p)
            <==> LastForTarget(ix, paths, p) && Extracted(payload, ix, p).Ok?
    ensures Answered(ix, paths, payload, p) ==> p in paths
  {
    hide Index.TargetOf;
    if ix.TargetOf(p).Ok? {
      var target := ix.TargetOf(p).value;
      LastRequestIsLast(ix, paths, p, target);
      FirstDataPresent(payload, target);
      LastDataPresent(payload, target);
    }
  }
}
