/** The digest loop run on positions instead of bytes: where each byte that it feeds comes from,
    for every layout. */
module FedCells {
  import opened Rfc1321
  import opened SectionDigest
  import opened SectionDigestTheorems

  /** A byte of the file, or what the buffer held before the loop. */
  datatype Cell = FromFile(p: nat) | FromBuffer(i: nat)

  function Positions(size: nat): (cells: seq<Cell>)
    ensures |cells| == size
  {
    seq(size, (p: nat) => FromFile(p))
  }

  function Slots(): (cells: seq<Cell>)
    ensures |cells| == CHUNK
  {
    seq(CHUNK, (i: nat) => FromBuffer(i))
  }

  /** What is fed, computed from the layout and the size of the file alone. */
  function CellsFed(layout: Layout, size: nat): (cells: seq<Cell>)
    ensures |cells| == CHUNK * Chunks(size)
  {
    Fed(Positions(size), layout, Slots(), Chunks(size))
  }

  // The loop does not look at what it moves

  predicate Shown(c: Cell, b: Byte, file: seq<Byte>, initial: seq<Byte>) {
    match c
    case FromFile(p) => p < |file| && b == file[p]
    case FromBuffer(i) => i < |initial| && b == initial[i]
  }

  ghost predicate Shows(cells: seq<Cell>, bytes: seq<Byte>, file: seq<Byte>, initial: seq<Byte>) {
    |cells| == |bytes| && forall i | 0 <= i < |cells| :: Shown(cells[i], bytes[i], file, initial)
  }

  ghost predicate LoopShows(cells: Loop<Cell>, bytes: Loop<Byte>, file: seq<Byte>, initial: seq<Byte>) {
    cells.pos == bytes.pos && cells.carry == bytes.carry && Shows(cells.buffer, bytes.buffer, file, initial)
  }

  ghost predicate StepShows(cells: Step<Cell>, bytes: Step<Byte>, file: seq<Byte>, initial: seq<Byte>) {
    cells.left == bytes.left && LoopShows(cells.loop, bytes.loop, file, initial)
  }

  lemma ReadShows(file: seq<Byte>, initial: seq<Byte>, pos: nat, n: nat)
    ensures Shows(ReadAt(Positions(|file|), pos, n), ReadAt(file, pos, n), file, initial)
  {
  }

  lemma OverwriteShows(cells: seq<Cell>, bytes: seq<Byte>, at: nat, newCells: seq<Cell>, newBytes: seq<Byte>,
                       file: seq<Byte>, initial: seq<Byte>)
    requires Shows(cells, bytes, file, initial) && Shows(newCells, newBytes, file, initial)
    requires at + |newBytes| <= |bytes|
    ensures Shows(Overwrite(cells, at, newCells), Overwrite(bytes, at, newBytes), file, initial)
  {
    hide Shown;
  }

  lemma SkipShows(s: Section, start: nat, cells: Step<Cell>, bytes: Step<Byte>, file: seq<Byte>, initial: seq<Byte>)
    requires StepShows(cells, bytes, file, initial) && bytes.left <= CHUNK == |bytes.loop.buffer|
    ensures StepShows(SkipSection(Positions(|file|), s, start, cells), SkipSection(file, s, start, bytes), file, initial)
  {
    hide Shows, ReadAt, Overwrite, Positions;
    assert |cells.loop.buffer| == CHUNK by {
      SameLength(cells.loop.buffer, bytes.loop.buffer, file, initial);
    }
    if BeginsIn(s, start) {
      var begin, pos := s.offset - start, bytes.loop.pos;
      var newCells, newBytes := ReadAt(Positions(|file|), pos, begin), ReadAt(file, pos, begin);
      ReadShows(file, initial, pos, begin);
      SameLength(newCells, newBytes, file, initial);
      OverwriteShows(cells.loop.buffer, bytes.loop.buffer, 0, newCells, newBytes, file, initial);
    }
  }

  lemma SameLength(cells: seq<Cell>, bytes: seq<Byte>, file: seq<Byte>, initial: seq<Byte>)
    requires Shows(cells, bytes, file, initial)
    ensures |cells| == |bytes|
  {
  }

  lemma RestShows(cells: Step<Cell>, bytes: Step<Byte>, file: seq<Byte>, initial: seq<Byte>)
    requires StepShows(cells, bytes, file, initial) && bytes.left <= CHUNK == |bytes.loop.buffer|
    requires |cells.loop.buffer| == CHUNK
    ensures LoopShows(ReadRest(Positions(|file|), cells), ReadRest(file, bytes), file, initial)
  {
    hide Shows, ReadAt, Overwrite, Positions;
    if bytes.left > 0 {
      var pos, left := bytes.loop.pos, bytes.left;
      var newCells, newBytes := ReadAt(Positions(|file|), pos, left), ReadAt(file, pos, left);
      ReadShows(file, initial, pos, left);
      SameLength(newCells, newBytes, file, initial);
      OverwriteShows(cells.loop.buffer, bytes.loop.buffer, CHUNK - left, newCells, newBytes, file, initial);
    }
  }

  lemma IterationShows(layout: Layout, cells: Loop<Cell>, bytes: Loop<Byte>, file: seq<Byte>, initial: seq<Byte>)
    requires LoopShows(cells, bytes, file, initial) && |bytes.buffer| == |cells.buffer| == CHUNK
    ensures LoopShows(Iteration(Positions(|file|), layout, cells), Iteration(file, layout, bytes), file, initial)
  {
    hide Shows, SkipSection, ReadRest, Positions;
    var c, b := SkipCarried(cells), SkipCarried(bytes);
    SkipShows(layout.digest, bytes.pos, c, b, file, initial);
    c, b := SkipSection(Positions(|file|), layout.digest, bytes.pos, c), SkipSection(file, layout.digest, bytes.pos, b);
    SkipShows(layout.signature, bytes.pos, c, b, file, initial);
    c, b := SkipSection(Positions(|file|), layout.signature, bytes.pos, c), SkipSection(file, layout.signature, bytes.pos, b);
    SkipShows(layout.key, bytes.pos, c, b, file, initial);
    c, b := SkipSection(Positions(|file|), layout.key, bytes.pos, c), SkipSection(file, layout.key, bytes.pos, b);
    RestShows(c, b, file, initial);
  }

  lemma {:induction false} AfterShows(file: seq<Byte>, layout: Layout, initial: seq<Byte>, k: nat)
    requires |initial| == CHUNK
    ensures LoopShows(After(Positions(|file|), layout, Slots(), k), After(file, layout, initial, k), file, initial)
  {
    hide Iteration, Positions, Slots;
    if k == 0 {
      SlotsShow(file, initial);
    } else {
      AfterShows(file, layout, initial, k - 1);
      IterationShows(layout, After(Positions(|file|), layout, Slots(), k - 1), After(file, layout, initial, k - 1), file, initial);
    }
  }

  lemma SlotsShow(file: seq<Byte>, initial: seq<Byte>)
    requires |initial| == CHUNK
    ensures Shows(Slots(), initial, file, initial)
  {
  }

  lemma {:induction false} FedShows(file: seq<Byte>, layout: Layout, initial: seq<Byte>, k: nat)
    requires |initial| == CHUNK
    ensures Shows(Fed(Positions(|file|), layout, Slots(), k), Fed(file, layout, initial, k), file, initial)
  {
    hide After, Positions, Slots, Shown;
    if k > 0 {
      FedShows(file, layout, initial, k - 1);
      AfterShows(file, layout, initial, k);
    }
  }

  // The exact condition, for every layout

  /** No byte that is fed comes from a section. */
  predicate NoSectionIsFed(layout: Layout, size: nat) {
    forall i | 0 <= i < |CellsFed(layout, size)| ::
      CellsFed(layout, size)[i].FromFile? ==> !Covered(layout, CellsFed(layout, size)[i].p)
  }

  /** The digest is independent of the section bytes if and only if none of them is fed. */
  lemma NonInterferenceOfCells(layout: Layout, size: nat)
    ensures NonInterfering(layout, size) <==> NoSectionIsFed(layout, size)
  {
    hide Fed, Covered, CellsFed;
    var cells := CellsFed(layout, size);
    if NoSectionIsFed(layout, size) {
      forall f, g, initial | |f| == size && AgreeOutside(f, g, layout) && |initial| == CHUNK
        ensures Fed(f, layout, initial, Chunks(size)) == Fed(g, layout, initial, Chunks(size))
      {
        CellsShow(layout, f, initial);
        CellsShow(layout, g, initial);
      }
    } else {
      var i :| 0 <= i < |cells| && cells[i].FromFile? && Covered(layout, cells[i].p);
      CoveredCellInterferes(layout, size, i);
    }
  }

  lemma CellsShow(layout: Layout, file: seq<Byte>, initial: seq<Byte>)
    requires |initial| == CHUNK
    ensures Shows(CellsFed(layout, |file|), Fed(file, layout, initial, Chunks(|file|)), file, initial)
  {
    FedShows(file, layout, initial, Chunks(|file|));
  }

  lemma CoveredCellInterferes(layout: Layout, size: nat, i: nat)
    requires i < |CellsFed(layout, size)|
    requires CellsFed(layout, size)[i].FromFile? && Covered(layout, CellsFed(layout, size)[i].p)
    ensures !NonInterfering(layout, size)
  {
    hide Fed, Covered, CellsFed;
    var p := CellsFed(layout, size)[i].p;
    var f, initial := Zeros(size), Zeros(CHUNK);
    CellsShow(layout, f, initial);
    assert Shown(CellsFed(layout, size)[i], Fed(f, layout, initial, Chunks(size))[i], f, initial);
    var g := f[p := Byte(1)];
    CellsShow(layout, g, initial);
    assert Shown(CellsFed(layout, size)[i], Fed(g, layout, initial, Chunks(size))[i], g, initial);
    assert AgreeOutside(f, g, layout);
  }
}
