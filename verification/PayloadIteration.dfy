/** src/libappimage/core/impl/TraversalType1.cpp and core/PayloadIterator.cpp: a one-way walk
    over the headers of an archive, and the iterator built on it. */
module PayloadIteration {
  import opened Payload

  datatype FileType = IFREG | IFLNK | IFDIR | OTHER

  /** What the archive library tells of an entry. */
  datatype Header = Header(pathname: Option<string>, symlink: Option<string>, hardlink: Option<string>, fileType: FileType)

  /** readEntryName: without a leading "./" */
  function EntryName(h: Header): string {
    match h.pathname
    case None => ""
    case Some(name) => if "./" <= name then name[2..] else name
  }

  function DropTwo(s: string): string { if |s| < 2 then "" else s[2..] }

  function EntryLink(h: Header): string {
    match h.symlink
    case Some(link) => DropTwo(link)
    case None =>
      match h.hardlink
      case Some(link) => DropTwo(link)
      case None => ""
  }

  function EntryKind(h: Header): EntryType {
    if EntryLink(h) != "" then LINK
    else match h.fileType
      case IFREG => REGULAR
      case IFLNK => LINK
      case IFDIR => DIR
      case OTHER => UNKNOWN
  }

  /** The names of the entries that are shown, in archive order. */
  function Names(archive: seq<Header>): seq<string> {
    if archive == [] then []
    else (if EntryName(archive[0]) == "." then [] else [EntryName(archive[0])]) + Names(archive[1..])
  }

  /** The headers left when the skipped ones at the front are passed over. */
  function SkipDots(archive: seq<Header>): (rest: seq<Header>)
    ensures |rest| <= |archive|
    ensures rest != [] ==> EntryName(rest[0]) != "."
  {
    if archive != [] && EntryName(archive[0]) == "." then SkipDots(archive[1..]) else archive
  }

  lemma {:induction false} NamesSkipDots(archive: seq<Header>)
    ensures Names(SkipDots(archive)) == Names(archive)
    ensures SkipDots(archive) == [] <==> Names(archive) == []
  {
    if archive != [] && EntryName(archive[0]) == "." {
      NamesSkipDots(archive[1..]);
    }
  }

  /** The paths that a loop over files() sees. */
  function Visited(archive: seq<Header>): seq<string> {
    if Names(archive) != [] then Names(archive) else if archive == [] then [""] else ["."]
  }

  class TraversalType1 {
    var unread: seq<Header>
    var completed: bool
    var entryName: string
    var entryLink: string
    var entryType: EntryType

    constructor (archive: seq<Header>)
      ensures var rest := SkipDots(archive);
              if rest != [] then !completed && unread == rest[1..] && Shows(rest[0])
              else completed && entryName == if archive == [] then "" else "."
    {
      unread := archive;
      completed := false;
      entryName, entryLink, entryType := "", "", UNKNOWN;
      new;
      Next();
    }

    predicate Shows(h: Header)
      reads this
    {
      entryName == EntryName(h) && entryLink == EntryLink(h) && entryType == EntryKind(h)
    }

    /** Reads headers until one is not the "." entry. When there is none, the last "." stays
        behind as the entry name. */
    method Next()
      modifies this
      ensures old(completed) ==> unchanged(this)
      ensures !old(completed) ==>
                var rest := SkipDots(old(unread));
                if rest != [] then !completed && unread == rest[1..] && Shows(rest[0])
                else completed && entryName == if old(unread) == [] then old(entryName) else "."
      decreases if completed then 0 else 1, |unread|
    {
      if completed {
        return;
      }
      if unread == [] {
        completed := true;
        return;
      }
      var h := unread[0];
      unread := unread[1..];
      entryName := EntryName(h);
      entryLink := EntryLink(h);
      entryType := EntryKind(h);
      if entryName == "." {
        Next();
      }
    }
  }

  class PayloadIterator {
    var traversal: TraversalType1?
    var entryDataConsumed: bool

    /** The paths still to be seen, the current one first. */
    ghost function Remaining(): seq<string>
      reads this, traversal
    {
      if traversal == null then []
      else [traversal.entryName] + if traversal.completed then [] else Names(traversal.unread)
    }

    constructor (archive: seq<Header>)
      ensures traversal != null && fresh(traversal) && !entryDataConsumed
      ensures Remaining() == Visited(archive)
    {
      traversal := new TraversalType1(archive);
      entryDataConsumed := false;
      new;
      NamesSkipDots(archive);
    }

    /** The end state has no traversal. */
    predicate AtEnd()
      reads this
    {
      traversal == null
    }

    method Next()
      modifies this, traversal
      ensures traversal == null || traversal == old(traversal)
      ensures old(traversal) == null ==> unchanged(this)
      ensures old(traversal) != null ==> !entryDataConsumed && Remaining() == old(Remaining())[1..]
    {
      if traversal != null {
        NamesSkipDots(traversal.unread);
        traversal.Next();
        entryDataConsumed := false;
        if traversal.completed {
          traversal := null;
        }
      }
    }

    function Path(): string
      reads this, traversal
    {
      if traversal == null then "" else traversal.entryName
    }

    /** read() and extractTo() share this: the data of an entry is handed out once. */
    method Consume() returns (ok: bool)
      modifies this`entryDataConsumed
      ensures ok == !old(entryDataConsumed) && entryDataConsumed
    {
      ok := !entryDataConsumed;
      entryDataConsumed := true;
    }
  }

  /** for (itr = files(); itr != itr.end(); ++itr) */
  method VisitAll(archive: seq<Header>) returns (paths: seq<string>)
    ensures paths == Visited(archive)
  {
    var it := new PayloadIterator(archive);
    paths := [];
    while !it.AtEnd()
      invariant fresh(it) && (it.traversal != null ==> fresh(it.traversal))
      invariant paths + it.Remaining() == Visited(archive)
      decreases |it.Remaining()|
    {
      paths := paths + [it.Path()];
      it.Next();
    }
  }

  function NonEmpty(names: seq<string>): seq<string> {
    if names == [] then []
    else (if names[0] == "" then [] else [names[0]]) + NonEmpty(names[1..])
  }

  lemma {:induction false} NonEmptyAppend(names: seq<string>, name: string)
    ensures NonEmpty(names + [name]) == NonEmpty(names) + if name == "" then [] else [name]
  {
    if names != [] {
      NonEmptyAppend(names[1..], name);
      assert (names + [name])[1..] == names[1..] + [name];
    }
  }

  /** appimage_list_files */
  method ListFiles(archive: seq<Header>) returns (files: seq<string>)
    ensures files == NonEmpty(Visited(archive))
  {
    var paths := VisitAll(archive);
    files := [];
    for i := 0 to |paths|
      invariant files == NonEmpty(paths[..i])
    {
      NonEmptyAppend(paths[..i], paths[i]);
      assert paths[..i + 1] == paths[..i] + [paths[i]];
      if paths[i] != "" {
        files := files + [paths[i]];
      }
    }
    assert paths[..|paths|] == paths;
  }

  /** The list has exactly the non-empty names of the shown entries, unless the archive holds
      "." entries and nothing else: then the walk shows a ".". */
  lemma ListFilesExactly(archive: seq<Header>)
    ensures NonEmpty(Visited(archive)) == NonEmpty(Names(archive)) <==> archive == [] || Names(archive) != []
  {
    assert NonEmpty(["."]) == ["."] + NonEmpty([]);
  }

  lemma LoneDotIsListed()
    ensures var archive := [Header(Some("."), None, None, IFDIR)];
            Names(archive) == [] && NonEmpty(Visited(archive)) == ["."]
  {
    var archive := [Header(Some("."), None, None, IFDIR)];
    assert archive[1..] == [];
    ListFilesExactly(archive);
  }

  // The one-pass restriction over whole runs

  datatype Call = ADVANCE | READ

  /** Which calls are carried out, on an iterator with this many entries from the current one
      on. At the end there is still the empty stream to read, once. */
  function Accepted(calls: seq<Call>, entries: nat, consumed: bool): (a: seq<bool>)
    ensures |a| == |calls|
  {
    if calls == [] then []
    else match calls[0]
      case READ => [!consumed] + Accepted(calls[1..], entries, true)
      case ADVANCE =>
        [true] + if entries == 0 then Accepted(calls[1..], 0, consumed) else Accepted(calls[1..], entries - 1, false)
  }

  ghost function EntriesOf(it: PayloadIterator): nat
    reads it, it.traversal
  {
    |it.Remaining()|
  }

  method Do(it: PayloadIterator, call: Call) returns (ok: bool)
    modifies it, it.traversal
    ensures it.traversal == null || it.traversal == old(it.traversal)
    ensures call == READ ==>
              ok == !old(it.entryDataConsumed) && it.entryDataConsumed && EntriesOf(it) == old(EntriesOf(it))
    ensures call == ADVANCE ==>
              ok && if old(EntriesOf(it)) == 0 then EntriesOf(it) == 0 && it.entryDataConsumed == old(it.entryDataConsumed)
                    else EntriesOf(it) == old(EntriesOf(it)) - 1 && !it.entryDataConsumed
  {
    match call
    case READ =>
      ok := it.Consume();
    case ADVANCE =>
      it.Next();
      ok := true;
  }

  method Run(it: PayloadIterator, calls: seq<Call>) returns (accepted: seq<bool>)
    modifies it, it.traversal
    ensures accepted == Accepted(calls, old(EntriesOf(it)), old(it.entryDataConsumed))
  {
    hide EntriesOf, Accepted;
    accepted := [];
    ghost var all := Accepted(calls, EntriesOf(it), it.entryDataConsumed);
    for i := 0 to |calls|
      invariant it.traversal == null || it.traversal == old(it.traversal)
      invariant all == accepted + Accepted(calls[i..], EntriesOf(it), it.entryDataConsumed)
    {
      AcceptedNext(calls, i, EntriesOf(it), it.entryDataConsumed);
      var ok := Do(it, calls[i]);
      MoveFirst(accepted, ok, Accepted(calls[i + 1..], EntriesOf(it), it.entryDataConsumed));
      accepted := accepted + [ok];
    }
  }

  lemma MoveFirst(front: seq<bool>, first: bool, rest: seq<bool>)
    ensures front + ([first] + rest) == (front + [first]) + rest
  {
  }

  lemma AcceptedNext(calls: seq<Call>, i: nat, entries: nat, consumed: bool)
    requires i < |calls|
    ensures Accepted(calls[i..], entries, consumed)
            == if calls[i] == READ then [!consumed] + Accepted(calls[i + 1..], entries, true)
               else if entries == 0 then [true] + Accepted(calls[i + 1..], 0, consumed)
               else [true] + Accepted(calls[i + 1..], entries - 1, false)
  {
    assert calls[i..][1..] == calls[i + 1..];
  }

  /** How many of the calls are reads that were carried out. */
  function ReadsIn(calls: seq<Call>, accepted: seq<bool>): nat
    requires |calls| == |accepted|
  {
    if calls == [] then 0
    else (if calls[0] == READ && accepted[0] then 1 else 0) + ReadsIn(calls[1..], accepted[1..])
  }

  /** However the calls are mixed, each entry is read at most once, and the end once more. */
  lemma {:induction false} OneReadPerEntry(calls: seq<Call>, entries: nat, consumed: bool)
    ensures ReadsIn(calls, Accepted(calls, entries, consumed)) <= entries + if consumed then 0 else 1
  {
    if calls != [] {
      var consumed' := if calls[0] == READ then true else if entries == 0 then consumed else false;
      var entries' := if calls[0] == READ || entries == 0 then entries else entries - 1;
      OneReadPerEntry(calls[1..], entries', consumed');
      assert Accepted(calls, entries, consumed)[1..] == Accepted(calls[1..], entries', consumed');
    }
  }

  /** Between two accepted reads lies an advance. */
  lemma {:induction false} ReadsAreSeparated(calls: seq<Call>, entries: nat, consumed: bool, i: nat, j: nat)
    requires i < j < |calls| && calls[i] == READ && calls[j] == READ
    requires Accepted(calls, entries, consumed)[i] && Accepted(calls, entries, consumed)[j]
    ensures exists k :: i < k < j && calls[k] == ADVANCE
  {
    if i > 0 {
      var consumed' := if calls[0] == READ then true else if entries == 0 then consumed else false;
      var entries' := if calls[0] == READ || entries == 0 then entries else entries - 1;
      ReadsAreSeparated(calls[1..], entries', consumed', i - 1, j - 1);
      var k :| i - 1 < k < j - 1 && calls[1..][k] == ADVANCE;
      assert calls[k + 1] == ADVANCE;
    } else {
      ConsumedUntilAdvance(calls[1..], entries, j - 1);
      var k :| 0 <= k < j - 1 && calls[1..][k] == ADVANCE;
      assert calls[k + 1] == ADVANCE;
    }
  }

  lemma {:induction false} ConsumedUntilAdvance(calls: seq<Call>, entries: nat, j: nat)
    requires j < |calls| && calls[j] == READ && Accepted(calls, entries, true)[j]
    ensures exists k :: 0 <= k < j && calls[k] == ADVANCE
  {
    if calls[0] == READ {
      ConsumedUntilAdvance(calls[1..], entries, j - 1);
      var k :| 0 <= k < j - 1 && calls[1..][k] == ADVANCE;
      assert calls[k + 1] == ADVANCE;
    }
  }

  // Headers, and a walk over a small archive

  lemma EntryNames(name: string, link: Option<string>, hard: Option<string>, kind: FileType)
    ensures EntryName(Header(None, link, hard, kind)) == ""
    ensures EntryName(Header(Some("./" + name), link, hard, kind)) == name
    ensures (|name| < 2 || name[0] != '.' || name[1] != '/') ==> EntryName(Header(Some(name), link, hard, kind)) == name
  {
    assert ("./" + name)[2..] == name;
  }

  /** Two characters of a link target are dropped, the symbolic one counts first, and any target
      makes the entry a link. */
  lemma EntryLinks(name: Option<string>, a: char, b: char, target: string, hard: Option<string>, kind: FileType)
    ensures EntryLink(Header(name, Some([a, b] + target), hard, kind)) == target
    ensures EntryLink(Header(name, None, Some([a, b] + target), kind)) == target
    ensures EntryLink(Header(name, None, None, kind)) == ""
    ensures target != "" ==> EntryKind(Header(name, Some([a, b] + target), hard, kind)) == LINK
    ensures target != "" ==> EntryKind(Header(name, None, Some([a, b] + target), kind)) == LINK
  {
    assert ([a, b] + target)[2..] == target;
  }

  lemma EntryKinds(name: Option<string>)
    ensures EntryKind(Header(name, None, None, IFREG)) == REGULAR && EntryKind(Header(name, None, None, IFLNK)) == LINK
    ensures EntryKind(Header(name, None, None, IFDIR)) == DIR && EntryKind(Header(name, None, None, OTHER)) == UNKNOWN
  {
  }

  lemma NamesFrom(h: Header, rest: seq<Header>)
    ensures Names([h] + rest) == (if EntryName(h) == "." then [] else [EntryName(h)]) + Names(rest)
    ensures Names([]) == []
  {
    assert ([h] + rest)[1..] == rest;
  }

  /** A walk over ".", "./usr" and "usr/a" */
  method VisitExample() returns (paths: seq<string>)
    ensures paths == ["usr", "usr/a"]
  {
    hide Names, EntryName;
    var dot, usr, a := Header(Some("."), None, None, IFDIR), Header(Some("./usr"), None, None, IFDIR), Header(Some("usr/a"), None, None, IFREG);
    assert "./" + "usr" == "./usr" && "usr/a"[0] == 'u';
    EntryNames(".", None, None, IFDIR);
    EntryNames("usr", None, None, IFDIR);
    EntryNames("usr/a", None, None, IFREG);
    NamesFrom(dot, [usr] + ([a] + []));
    NamesFrom(usr, [a] + []);
    NamesFrom(a, []);
    paths := VisitAll([dot] + ([usr] + ([a] + [])));
  }

  /** The walk over an archive without entries sees one empty path. */
  method VisitNothing() returns (paths: seq<string>)
    ensures paths == [""]
  {
    paths := VisitAll([]);
  }

  /** The second read of an entry is refused, the first of the next is not; at the end one more
      is accepted. */
  lemma AcceptedExample()
    ensures Accepted([READ, READ, ADVANCE, READ], 2, false) == [true, false, true, true]
    ensures Accepted([ADVANCE, READ, READ], 1, true) == [true, true, false]
  {
    FourCalls();
    ThreeCalls();
  }

  lemma FourCalls()
    ensures Accepted([READ, READ, ADVANCE, READ], 2, false) == [true, false, true, true]
  {
    var c := [READ, READ, ADVANCE, READ];
    AcceptedNext(c, 3, 1, false);
    AcceptedNext(c, 2, 2, true);
    AcceptedNext(c, 1, 2, true);
    AcceptedNext(c, 0, 2, false);
    assert c[0..] == c && |c[4..]| == 0;
  }

  lemma ThreeCalls()
    ensures Accepted([ADVANCE, READ, READ], 1, true) == [true, true, false]
  {
    var c := [ADVANCE, READ, READ];
    AcceptedNext(c, 2, 0, true);
    AcceptedNext(c, 1, 0, false);
    AcceptedNext(c, 0, 1, true);
    assert c[0..] == c && |c[3..]| == 0;
  }
}
