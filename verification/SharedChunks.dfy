/** What the digest loop does with sections that share a chunk. The second one is looked for from
    a cursor that the first has already moved, so a section byte is read after all. */
module SharedChunks {
  import opened Rfc1321
  import opened SectionDigest
  import opened SectionDigestTheorems

  ghost predicate Disjoint(s: Section, t: Section) {
    s.Present() && t.Present() ==> s.offset + s.length <= t.offset || t.offset + t.length <= s.offset
  }

  // Bytes that are fed from a section

  /** Byte i of chunk k is fed from byte p of the file, whatever the file holds. */
  ghost predicate FedFrom(layout: Layout, size: nat, k: nat, i: nat, p: nat)
    requires i < CHUNK && p < size
  {
    forall file: seq<Byte>, initial: seq<Byte> | |file| == size && |initial| == CHUNK ::
      Feeds(file, layout, initial, k, i, p)
  }

  ghost predicate Feeds(file: seq<Byte>, layout: Layout, initial: seq<Byte>, k: nat, i: nat, p: nat)
    requires i < CHUNK && p < |file| && |initial| == CHUNK
  {
    After(file, layout, initial, k + 1).buffer[i] == file[p]
  }

  lemma FedAt(layout: Layout, k: nat, i: nat, p: nat, file: seq<Byte>, initial: seq<Byte>)
    requires i < CHUNK && p < |file| && k < Chunks(|file|) && |initial| == CHUNK
    requires FedFrom(layout, |file|, k, i, p)
    ensures CHUNK * k + i < CHUNK * Chunks(|file|)
    ensures Fed(file, layout, initial, Chunks(|file|))[CHUNK * k + i] == file[p]
  {
    hide After, Fed, Chunks;
    FedIndex(file, layout, initial, Chunks(|file|), k, i);
  }

  lemma FedFromInterferes(layout: Layout, size: nat, k: nat, i: nat, p: nat)
    requires i < CHUNK && p < size && k < Chunks(size)
    requires Covered(layout, p) && FedFrom(layout, size, k, i, p)
    ensures !NonInterfering(layout, size)
  {
    hide FedFrom, Fed, Covered, Chunks;
    var f, initial := Zeros(size), Zeros(CHUNK);
    var g := f[p := Byte(1)];
    FedAt(layout, k, i, p, f, initial);
    FedAt(layout, k, i, p, g, initial);
    assert AgreeOutside(f, g, layout);
    assert Fed(f, layout, initial, Chunks(size)) != Fed(g, layout, initial, Chunks(size));
  }

  // Two sections, s before t in the order of the code, and a third one

  predicate IsPair(layout: Layout, s: Section, t: Section, u: Section) {
    || layout == Layout(s, t, u)
    || layout == Layout(s, u, t)
    || layout == Layout(u, s, t)
  }

  /** The sections of the layout, in any order. */
  predicate Has(layout: Layout, a: Section, b: Section, u: Section) { IsPair(layout, a, b, u) || IsPair(layout, b, a, u) }

  function IterationOfTwo(file: seq<Byte>, s: Section, t: Section, loop: Loop<Byte>): (r: Loop<Byte>)
    requires |loop.buffer| == CHUNK
    ensures |r.buffer| == CHUNK
  {
    ReadRest(file, SkipSection(file, t, loop.pos, SkipSection(file, s, loop.pos, SkipCarried(loop))))
  }

  lemma PairIteration(file: seq<Byte>, layout: Layout, s: Section, t: Section, u: Section, loop: Loop<Byte>)
    requires IsPair(layout, s, t, u) && !BeginsIn(u, loop.pos) && |loop.buffer| == CHUNK
    ensures Iteration(file, layout, loop) == IterationOfTwo(file, s, t, loop)
  {
    hide ReadRest, SkipCarried, ReadAt, Overwrite, BeginsIn;
  }

  /** A chunk in which only s may begin. */
  lemma OnlyBegins(file: seq<Byte>, layout: Layout, s: Section, t: Section, u: Section, loop: Loop<Byte>)
    requires Has(layout, s, t, u) && !BeginsIn(t, loop.pos) && !BeginsIn(u, loop.pos) && |loop.buffer| == CHUNK
    ensures Iteration(file, layout, loop) == IterationFor(file, s, loop)
  {
    hide ReadRest, SkipCarried, ReadAt, Overwrite, BeginsIn;
  }

  const ABSENT := Section(0, 0)

  lemma AbsentIsIdle(k: nat)
    ensures Carry(ABSENT, k) == 0 && forall start: nat :: !BeginsIn(ABSENT, start)
    ensures forall i: nat :: !Skips(ABSENT, k, i)
    ensures forall s: Section :: !ShareChunk(s, ABSENT)
  {
  }

  /** Two sections that share no chunk do not begin in the same one. */
  lemma BeginApart(a: Section, u: Section, k: nat)
    requires !ShareChunk(a, u)
    ensures !BeginsIn(a, CHUNK * k) || !BeginsIn(u, CHUNK * k)
  {
    BeginsExactly(a, k);
    BeginsExactly(u, k);
  }

  /** Before the chunk in which b begins, the loop runs as if there were only a and u. */
  lemma {:induction false} AloneUntil(file: seq<Byte>, layout: Layout, a: Section, b: Section, u: Section, initial: seq<Byte>, k: nat)
    requires Has(layout, a, b, u) && !ShareChunk(a, u)
    requires b.Present() && k <= FirstChunk(b) && CHUNK * k <= |file| && |initial| == CHUNK
    ensures After(file, layout, initial, k) == After(file, Layout(a, u, ABSENT), initial, k)
    ensures After(file, layout, initial, k).pos == CHUNK * k
    ensures After(file, layout, initial, k).carry == Carry(a, k) + Carry(u, k)
  {
    hide Iteration, IterationFor, IterationOfTwo, Has, Carry, ShareChunk, BeginsIn;
    var only := Layout(a, u, ABSENT);
    AbsentIsIdle(k);
    CursorConservation(file, only, initial, k);
    if k > 0 {
      AloneUntil(file, layout, a, b, u, initial, k - 1);
      var loop := After(file, layout, initial, k - 1);
      BeginsExactly(b, k - 1);
      BeginApart(a, u, k - 1);
      Permuted(layout, a, b, u);
      if BeginsIn(a, loop.pos) {
        OnlyBegins(file, layout, a, b, u, loop);
        OnlyBegins(file, only, a, u, ABSENT, loop);
      } else {
        OnlyBegins(file, layout, u, a, b, loop);
        OnlyBegins(file, only, u, a, ABSENT, loop);
      }
    }
  }

  lemma Permuted(layout: Layout, a: Section, b: Section, u: Section)
    requires Has(layout, a, b, u)
    ensures Has(layout, u, a, b) && Has(layout, b, a, u)
    ensures Has(Layout(a, u, ABSENT), a, u, ABSENT) && Has(Layout(a, u, ABSENT), u, a, ABSENT)
  {
  }

  // The reads of a chunk that is shared

  lemma ReadByte(file: seq<Byte>, pos: nat, n: nat, i: nat)
    requires i < n && pos + i < |file|
    ensures |ReadAt(file, pos, n)| > i && ReadAt(file, pos, n)[i] == file[pos + i]
  {
  }

  lemma OverwriteFront(buffer: seq<Byte>, bytes: seq<Byte>, i: nat)
    requires |bytes| <= |buffer| && i < |buffer|
    ensures Overwrite(buffer, 0, bytes)[i] == if i < |bytes| then bytes[i] else buffer[i]
  {
  }

  lemma RestKeepsFront(file: seq<Byte>, s: Step<Byte>, i: nat)
    requires s.left <= CHUNK == |s.loop.buffer| && i < CHUNK - s.left && i < CHUNK
    ensures ReadRest(file, s).buffer[i] == s.loop.buffer[i]
  {
  }

  /** What precedes a section in its chunk is read to the start of the buffer from wherever the
      cursor is, and nothing later in the iteration overwrites it. */
  lemma PrefixIsRead(file: seq<Byte>, s: Section, start: nat, step: Step<Byte>, i: nat)
    requires BeginsIn(s, start) && step.left <= CHUNK == |step.loop.buffer|
    requires i < s.offset - start && step.loop.pos + i < |file|
    ensures var after := SkipSection(file, s, start, step);
            && after.loop.buffer[i] == file[step.loop.pos + i] && after.left <= CHUNK
            && i < CHUNK - after.left
  {
    hide ReadAt, Overwrite;
    ReadByte(file, step.loop.pos, s.offset - start, i);
    OverwriteFront(step.loop.buffer, ReadAt(file, step.loop.pos, s.offset - start), i);
  }

  /** One section that begins in the chunk, after a carry of e bytes. */
  lemma PrefixAfterCarry(file: seq<Byte>, s: Section, k: nat, loop: Loop<Byte>, i: nat)
    requires |loop.buffer| == CHUNK && loop.pos == CHUNK * k && loop.carry < CHUNK
    requires BeginsIn(s, CHUNK * k) && i < s.offset - CHUNK * k && CHUNK * k + loop.carry + i < |file|
    ensures IterationFor(file, s, loop).buffer[i] == file[CHUNK * k + loop.carry + i]
  {
    hide SkipSection, ReadRest;
    var step := SkipCarried(loop);
    PrefixIsRead(file, s, CHUNK * k, step, i);
    RestKeepsFront(file, SkipSection(file, s, CHUNK * k, step), i);
  }

  /** Two sections that begin in the chunk, treated in the order of the file: the prefix of the
      second is read from behind the first, and so reaches into the second. */
  lemma SecondIsRead(file: seq<Byte>, a: Section, b: Section, k: nat, loop: Loop<Byte>)
    requires |loop.buffer| == CHUNK && loop.pos == CHUNK * k && loop.carry == 0
    requires BeginsIn(a, CHUNK * k) && BeginsIn(b, CHUNK * k) && a.offset + a.length <= b.offset < |file|
    ensures IterationOfTwo(file, a, b, loop).buffer[b.offset - a.offset - a.length] == file[b.offset]
  {
    hide ReadRest;
    var x, i := a.offset - CHUNK * k, b.offset - a.offset - a.length;
    var step := SkipSection(file, a, CHUNK * k, SkipCarried(loop));
    ReadLength(file, CHUNK * k, x);
    assert step.loop.pos == CHUNK * k + x + a.length;
    hide SkipSection;
    PrefixIsRead(file, b, CHUNK * k, step, i);
    RestKeepsFront(file, SkipSection(file, b, CHUNK * k, step), i);
  }

  lemma PrefixKeeps(file: seq<Byte>, s: Section, start: nat, step: Step<Byte>, i: nat)
    requires BeginsIn(s, start) && step.left <= CHUNK == |step.loop.buffer|
    requires s.offset - start <= i < CHUNK && i < CHUNK - step.left
    ensures var after := SkipSection(file, s, start, step);
            && after.loop.buffer[i] == step.loop.buffer[i] && after.left <= CHUNK
            && i < CHUNK - after.left
  {
    hide ReadAt, Overwrite;
    OverwriteFront(step.loop.buffer, ReadAt(file, step.loop.pos, s.offset - start), i);
  }

  /** In the other order the prefix of the second reaches over the first. */
  lemma FirstIsRead(file: seq<Byte>, a: Section, b: Section, k: nat, loop: Loop<Byte>)
    requires |loop.buffer| == CHUNK && loop.pos == CHUNK * k && loop.carry == 0
    requires BeginsIn(a, CHUNK * k) && BeginsIn(b, CHUNK * k) && a.offset < b.offset && a.offset < |file|
    ensures IterationOfTwo(file, b, a, loop).buffer[a.offset - CHUNK * k] == file[a.offset]
  {
    hide ReadRest, SkipSection;
    var i := a.offset - CHUNK * k;
    var step := SkipCarried(loop);
    PrefixIsRead(file, b, CHUNK * k, step, i);
    step := SkipSection(file, b, CHUNK * k, step);
    PrefixKeeps(file, a, CHUNK * k, step, i);
    RestKeepsFront(file, SkipSection(file, a, CHUNK * k, step), i);
  }

  // The leak

  /** a and b lie in the file in this order, b begins in the last chunk of a, and the third
      section shares no chunk with them. */
  ghost predicate Meet(layout: Layout, a: Section, b: Section, u: Section, size: nat) {
    && Has(layout, a, b, u) && !ShareChunk(a, u) && !ShareChunk(b, u)
    && a.Present() && b.Present() && a.offset + a.length <= b.offset && b.offset + b.length <= size
    && FirstChunk(b) == LastChunk(a)
  }

  /** The third section has no part in the shared chunk. */
  lemma ThirdIsIdle(b: Section, u: Section)
    requires b.Present() && !ShareChunk(b, u)
    ensures Idle(u, FirstChunk(b))
  {
    UntouchedIsIdle(u, FirstChunk(b));
  }

  /** In the chunks before that one, a byte of a that is not skipped is fed. */
  lemma EarlierByte(file: seq<Byte>, layout: Layout, a: Section, b: Section, u: Section, initial: seq<Byte>, p: nat)
    requires Meet(layout, a, b, u, |file|) && |initial| == CHUNK
    requires p < |file| && p / CHUNK < FirstChunk(b) && Covers(a, p) && !Skips(a, p / CHUNK, p % CHUNK)
    ensures After(file, layout, initial, p / CHUNK + 1).buffer[p % CHUNK] == file[p]
  {
    hide After, Has, Skips, Chunks, Covers;
    var k, i := p / CHUNK, p % CHUNK;
    PositionInChunk(|file|, p);
    AbsentIsIdle(k);
    CoversOnlyTouched(a, p);
    UntouchedIsIdle(u, k);
    AloneUntil(file, layout, a, b, u, initial, k + 1);
    AloneUntil(file, layout, a, b, u, initial, k);
    FedChunk(file, Layout(a, u, ABSENT), initial, k, i);
  }

  /** a begins in an earlier chunk and is not well placed: a byte of it is fed there. */
  lemma MisplacedIsFed(layout: Layout, a: Section, b: Section, u: Section, size: nat)
    requires Meet(layout, a, b, u, size) && FirstChunk(a) < FirstChunk(b) && !WellPlaced(a)
    ensures !NonInterfering(layout, size)
  {
    hide After, Has, Skips, WellPlaced, NonInterfering, Chunks;
    var p := UnskippedByte(a);
    PositionInChunk(size, p);
    forall file: seq<Byte>, initial: seq<Byte> | |file| == size && |initial| == CHUNK
      ensures Feeds(file, layout, initial, p / CHUNK, p % CHUNK, p)
    {
      EarlierByte(file, layout, a, b, u, initial, p);
    }
    PairCovers(layout, a, b, u, p);
    FedFromInterferes(layout, size, p / CHUNK, p % CHUNK, p);
  }

  lemma PairCovers(layout: Layout, a: Section, b: Section, u: Section, p: nat)
    requires Has(layout, a, b, u)
    ensures Covers(a, p) || Covers(b, p) || Covers(u, p) <==> Covered(layout, p)
  {
  }

  /** The carry of a well-placed section into the chunk that it ends in, before the next one
      begins there. */
  lemma CarryIntoLast(a: Section, b: Section)
    requires a.Present() && b.Present() && WellPlaced(a) && FirstChunk(a) < FirstChunk(b) == LastChunk(a)
    requires a.offset + a.length <= b.offset
    ensures Carry(a, FirstChunk(b)) == a.offset + a.length - CHUNK * FirstChunk(b)
    ensures 0 < Carry(a, FirstChunk(b)) <= b.offset - CHUNK * FirstChunk(b) < CHUNK
  {
    hide CarryAfter;
    CarryOfWellPlaced(Overhang(a), FirstChunk(b) - FirstChunk(a) - 1);
  }

  /** The byte that is fed when only b begins inside the chunk. */
  function PassedByte(a: Section, b: Section): nat { if FirstChunk(a) < FirstChunk(b) then b.offset else a.offset }

  function PassedIn(a: Section, b: Section): int { PassedByte(a, b) - CHUNK * FirstChunk(b) - Carry(a, FirstChunk(b)) }

  lemma OnePrefix(a: Section, b: Section)
    requires a.Present() && b.Present() && a.offset + a.length <= b.offset && FirstChunk(b) == LastChunk(a)
    requires if FirstChunk(a) < FirstChunk(b) then WellPlaced(a) else a.offset % CHUNK == 0
    ensures var k := FirstChunk(b);
            && !BeginsIn(a, CHUNK * k) && BeginsIn(b, CHUNK * k) && Carry(a, k) < CHUNK && CHUNK * k <= b.offset
            && 0 <= PassedIn(a, b) < b.offset - CHUNK * k < CHUNK && PassedByte(a, b) <= b.offset
            && (Covers(a, PassedByte(a, b)) || Covers(b, PassedByte(a, b)))
  {
    hide WellPlaced, Carry;
    var k := FirstChunk(b);
    if FirstChunk(a) < k {
      CarryIntoLast(a, b);
    } else {
      NoCarryYet(a, k);
    }
    BeginsExactly(a, k);
    BeginsExactly(b, k);
  }

  lemma OnePrefixFeeds(file: seq<Byte>, layout: Layout, a: Section, b: Section, u: Section, initial: seq<Byte>)
    requires Meet(layout, a, b, u, |file|) && |initial| == CHUNK
    requires if FirstChunk(a) < FirstChunk(b) then WellPlaced(a) else a.offset % CHUNK == 0
    requires 0 <= PassedIn(a, b) < CHUNK && PassedByte(a, b) < |file|
    ensures Feeds(file, layout, initial, FirstChunk(b), PassedIn(a, b), PassedByte(a, b))
  {
    hide After, Iteration, IterationFor, IterationOfTwo, Has, WellPlaced, Carry, BeginsIn, FirstChunk, LastChunk, PassedByte;
    var k := FirstChunk(b);
    OnePrefix(a, b);
    ThirdIsIdle(b, u);
    AloneUntil(file, layout, a, b, u, initial, k);
    AfterNext(file, layout, initial, k);
    var loop := After(file, layout, initial, k);
    PairSteps(file, layout, a, b, u, loop);
    PrefixAfterCarry(file, b, k, loop, PassedIn(a, b));
  }

  /** a only reaches into the chunk, or begins on its boundary: the prefix of b is read from
      behind a, or from the start. */
  lemma OnePrefixIsFed(layout: Layout, a: Section, b: Section, u: Section, size: nat)
    requires Meet(layout, a, b, u, size)
    requires if FirstChunk(a) < FirstChunk(b) then WellPlaced(a) else a.offset % CHUNK == 0
    ensures !NonInterfering(layout, size)
  {
    hide Has, WellPlaced, NonInterfering, Feeds, PassedByte, PassedIn, FirstChunk, LastChunk, Covers, Covered, Chunks, BeginsIn, Carry;
    var k, i, p := FirstChunk(b), PassedIn(a, b), PassedByte(a, b);
    OnePrefix(a, b);
    ChunkOfOffset(b, size);
    forall file: seq<Byte>, initial: seq<Byte> | |file| == size && |initial| == CHUNK
      ensures Feeds(file, layout, initial, k, i, p)
    {
      OnePrefixFeeds(file, layout, a, b, u, initial);
    }
    PairCovers(layout, a, b, u, p);
    FedFromInterferes(layout, size, k, i, p);
  }

  lemma ChunkOfOffset(b: Section, size: nat)
    requires b.offset < size
    ensures FirstChunk(b) < Chunks(size)
  {
    PositionInChunk(size, b.offset);
  }

  lemma NoCarryYet(a: Section, k: nat)
    requires FirstChunk(a) >= k
    ensures Carry(a, k) == 0
  {
  }

  lemma PairSteps(file: seq<Byte>, layout: Layout, a: Section, b: Section, u: Section, loop: Loop<Byte>)
    requires Has(layout, a, b, u) && !BeginsIn(u, loop.pos) && |loop.buffer| == CHUNK
    ensures IsPair(layout, a, b, u) ==> Iteration(file, layout, loop) == IterationOfTwo(file, a, b, loop)
    ensures !IsPair(layout, a, b, u) ==> Iteration(file, layout, loop) == IterationOfTwo(file, b, a, loop)
    ensures !BeginsIn(a, loop.pos) ==> Iteration(file, layout, loop) == IterationFor(file, b, loop)
  {
    hide Iteration, IterationFor, IterationOfTwo, IsPair, BeginsIn;
    if IsPair(layout, a, b, u) {
      PairIteration(file, layout, a, b, u, loop);
    } else {
      PairIteration(file, layout, b, a, u, loop);
    }
    if !BeginsIn(a, loop.pos) {
      OnlyBegins(file, layout, b, a, u, loop);
    }
  }

  /** The byte that is fed when both begin inside the chunk. */
  function FedByte(layout: Layout, a: Section, b: Section, u: Section): nat { if IsPair(layout, a, b, u) then b.offset else a.offset }

  function FedIn(layout: Layout, a: Section, b: Section, u: Section): nat
    requires a.offset + a.length <= b.offset
  {
    if IsPair(layout, a, b, u) then b.offset - a.offset - a.length else a.offset % CHUNK
  }

  lemma TwoPrefixes(file: seq<Byte>, layout: Layout, a: Section, b: Section, u: Section, initial: seq<Byte>)
    requires Meet(layout, a, b, u, |file|) && FirstChunk(a) == FirstChunk(b) && a.offset % CHUNK != 0
    requires |initial| == CHUNK
    ensures FedIn(layout, a, b, u) < CHUNK
    ensures After(file, layout, initial, FirstChunk(b) + 1).buffer[FedIn(layout, a, b, u)] == file[FedByte(layout, a, b, u)]
  {
    hide After, Iteration, IterationFor, IterationOfTwo, Has, Carry, FirstChunk, LastChunk;
    var k := FirstChunk(b);
    BothBegin(a, b);
    ThirdIsIdle(b, u);
    AloneUntil(file, layout, a, b, u, initial, k);
    AfterNext(file, layout, initial, k);
    var loop := After(file, layout, initial, k);
    PairSteps(file, layout, a, b, u, loop);
    if IsPair(layout, a, b, u) {
      SecondIsRead(file, a, b, k, loop);
    } else {
      FirstIsRead(file, a, b, k, loop);
    }
  }

  lemma BothBegin(a: Section, b: Section)
    requires a.Present() && b.Present() && a.offset + a.length <= b.offset
    requires FirstChunk(a) == FirstChunk(b) && a.offset % CHUNK != 0
    ensures var k := FirstChunk(b);
            && BeginsIn(a, CHUNK * k) && BeginsIn(b, CHUNK * k) && Carry(a, k) == 0
            && a.offset - CHUNK * k == a.offset % CHUNK && b.offset - CHUNK * k < CHUNK && CHUNK * k <= a.offset
  {
    BeginsExactly(a, FirstChunk(b));
    BeginsExactly(b, FirstChunk(b));
    NoCarryYet(a, FirstChunk(b));
  }

  lemma FedByteIsCovered(layout: Layout, a: Section, b: Section, u: Section, size: nat)
    requires Meet(layout, a, b, u, size) && FirstChunk(a) == FirstChunk(b)
    ensures a.offset + a.length <= b.offset && FedByte(layout, a, b, u) < size && FirstChunk(b) < Chunks(size)
    ensures FedIn(layout, a, b, u) < CHUNK && Covered(layout, FedByte(layout, a, b, u))
  {
    hide Has, Chunks, Covered;
    PositionInChunk(size, b.offset);
    PairCovers(layout, a, b, u, FedByte(layout, a, b, u));
  }

  lemma TwoPrefixesAreFed(layout: Layout, a: Section, b: Section, u: Section, size: nat)
    requires Meet(layout, a, b, u, size) && FirstChunk(a) == FirstChunk(b) && a.offset % CHUNK != 0
    ensures !NonInterfering(layout, size)
  {
    hide Meet, NonInterfering, Chunks, Covered, FirstChunk, FedIn, FedByte, FedFrom;
    FedByteIsCovered(layout, a, b, u, size);
    assert FedFrom(layout, size, FirstChunk(b), FedIn(layout, a, b, u), FedByte(layout, a, b, u)) by {
      TwoPrefixesFedFrom(layout, a, b, u, size);
    }
    FedFromInterferes(layout, size, FirstChunk(b), FedIn(layout, a, b, u), FedByte(layout, a, b, u));
  }

  lemma TwoPrefixesFedFrom(layout: Layout, a: Section, b: Section, u: Section, size: nat)
    requires Meet(layout, a, b, u, size) && FirstChunk(a) == FirstChunk(b) && a.offset % CHUNK != 0
    requires a.offset + a.length <= b.offset && FedIn(layout, a, b, u) < CHUNK && FedByte(layout, a, b, u) < size
    ensures FedFrom(layout, size, FirstChunk(b), FedIn(layout, a, b, u), FedByte(layout, a, b, u))
  {
    hide After, Meet, FirstChunk, FedIn, FedByte;
    forall file: seq<Byte>, initial: seq<Byte> | |file| == size && |initial| == CHUNK
      ensures Feeds(file, layout, initial, FirstChunk(b), FedIn(layout, a, b, u), FedByte(layout, a, b, u))
    {
      TwoPrefixes(file, layout, a, b, u, initial);
    }
  }

  lemma SharingInterferes(layout: Layout, a: Section, b: Section, u: Section, size: nat)
    requires Meet(layout, a, b, u, size)
    ensures !NonInterfering(layout, size)
  {
    hide Meet, NonInterfering, WellPlaced;
    if FirstChunk(a) < FirstChunk(b) {
      if WellPlaced(a) {
        OnePrefixIsFed(layout, a, b, u, size);
      } else {
        MisplacedIsFed(layout, a, b, u, size);
      }
    } else if a.offset % CHUNK == 0 {
      MeetInOne(layout, a, b, u, size);
      OnePrefixIsFed(layout, a, b, u, size);
    } else {
      MeetInOne(layout, a, b, u, size);
      TwoPrefixesAreFed(layout, a, b, u, size);
    }
  }

  lemma MeetInOne(layout: Layout, a: Section, b: Section, u: Section, size: nat)
    requires Meet(layout, a, b, u, size)
    ensures FirstChunk(a) <= FirstChunk(b)
  {
  }

  // The exact result when at most one pair shares a chunk

  ghost predicate AtMostOnePair(layout: Layout) {
    && !(ShareChunk(layout.digest, layout.signature) && ShareChunk(layout.digest, layout.key))
    && !(ShareChunk(layout.digest, layout.signature) && ShareChunk(layout.signature, layout.key))
    && !(ShareChunk(layout.digest, layout.key) && ShareChunk(layout.signature, layout.key))
  }

  ghost predicate AreDisjoint(layout: Layout) {
    && Disjoint(layout.digest, layout.signature)
    && Disjoint(layout.digest, layout.key)
    && Disjoint(layout.signature, layout.key)
  }

  ghost predicate AreInside(layout: Layout, size: nat) {
    Inside(layout.digest, size) && Inside(layout.signature, size) && Inside(layout.key, size)
  }

  predicate AllWellPlaced(layout: Layout) {
    WellPlaced(layout.digest) && WellPlaced(layout.signature) && WellPlaced(layout.key)
  }

  lemma PairMeets(layout: Layout, s: Section, t: Section, u: Section, size: nat)
    requires Has(layout, s, t, u) && ShareChunk(s, t) && !ShareChunk(s, u) && !ShareChunk(t, u)
    requires Disjoint(s, t) && Inside(s, size) && Inside(t, size)
    ensures Meet(layout, s, t, u, size) || Meet(layout, t, s, u, size)
  {
    hide IsPair;
    if s.offset + s.length <= t.offset {
      ChunksMeet(s, t);
    } else {
      ChunksMeet(t, s);
    }
  }

  lemma ChunksMeet(a: Section, b: Section)
    requires ShareChunk(a, b) && a.offset + a.length <= b.offset
    ensures FirstChunk(b) == LastChunk(a)
  {
  }

  lemma SharedPair(layout: Layout) returns (s: Section, t: Section, u: Section)
    requires AtMostOnePair(layout) && !NoSharedChunk(layout)
    ensures Has(layout, s, t, u) && ShareChunk(s, t) && !ShareChunk(s, u) && !ShareChunk(t, u)
  {
    hide FirstChunk, LastChunk;
    if ShareChunk(layout.digest, layout.signature) {
      s, t, u := layout.digest, layout.signature, layout.key;
    } else if ShareChunk(layout.digest, layout.key) {
      s, t, u := layout.digest, layout.key, layout.signature;
    } else {
      s, t, u := layout.signature, layout.key, layout.digest;
    }
  }

  lemma PairIsApart(layout: Layout, s: Section, t: Section, u: Section, size: nat)
    requires Has(layout, s, t, u) && AreDisjoint(layout) && AreInside(layout, size)
    ensures Disjoint(s, t) && Inside(s, size) && Inside(t, size)
  {
  }

  /** When exactly one pair shares a chunk, the digest depends on one of the two sections. */
  lemma OnePairInterferes(layout: Layout, size: nat)
    requires AtMostOnePair(layout) && !NoSharedChunk(layout)
    requires AreDisjoint(layout) && AreInside(layout, size)
    ensures !NonInterfering(layout, size)
  {
    hide NonInterfering, NoSharedChunk, ShareChunk, Meet, Has, Disjoint;
    var s, t, u := SharedPair(layout);
    PairIsApart(layout, s, t, u, size);
    PairMeets(layout, s, t, u, size);
    if Meet(layout, s, t, u, size) {
      SharingInterferes(layout, s, t, u, size);
    } else {
      SharingInterferes(layout, t, s, u, size);
    }
  }

  /** For sections that do not overlap, lie inside the file and of which at most one pair shares
      a chunk, the digest is independent of the section bytes if and only if none does and all
      are well placed. */
  lemma AtMostOnePairExactly(layout: Layout, size: nat)
    requires AtMostOnePair(layout) && AreDisjoint(layout) && AreInside(layout, size)
    ensures NonInterfering(layout, size) <==> NoSharedChunk(layout) && AllWellPlaced(layout)
  {
    hide NonInterfering, WellPlaced, NoSharedChunk;
    if NoSharedChunk(layout) {
      NonInterferenceByLayout(layout, size);
    } else {
      OnePairInterferes(layout, size);
    }
  }

  ghost predicate AtMostTwo(layout: Layout) {
    !layout.digest.Present() || !layout.signature.Present() || !layout.key.Present()
  }

  /** In particular for at most two sections. */
  lemma TwoSectionsExactly(layout: Layout, size: nat)
    requires AtMostTwo(layout) && AreDisjoint(layout) && AreInside(layout, size)
    ensures NonInterfering(layout, size) <==> NoSharedChunk(layout) && AllWellPlaced(layout)
  {
    hide NonInterfering, AreDisjoint, AreInside, NoSharedChunk, AllWellPlaced, FirstChunk, LastChunk;
    AtMostOnePairExactly(layout, size);
  }

  const SHARED := Layout(Section(10, 10), Section(100, 10), ABSENT)

  /** For instance these two, both well placed. */
  lemma SharedChunkInterferes()
    ensures WellPlaced(SHARED.digest) && WellPlaced(SHARED.signature) && WellPlaced(SHARED.key)
    ensures ShareChunk(SHARED.digest, SHARED.signature)
    ensures !NonInterfering(SHARED, CHUNK)
  {
    hide NonInterfering;
    TwoSectionsExactly(SHARED, CHUNK);
  }

  // Three sections in one chunk

  /** Before a chunk in which some section begins for the first time, nothing is skipped. */
  lemma {:induction false} NothingUntil(file: seq<Byte>, layout: Layout, initial: seq<Byte>, k: nat)
    requires k <= FirstChunk(layout.digest) && k <= FirstChunk(layout.signature) && k <= FirstChunk(layout.key)
    requires CHUNK * k <= |file| && |initial| == CHUNK
    ensures After(file, layout, initial, k).pos == CHUNK * k && After(file, layout, initial, k).carry == 0
  {
    hide Iteration, IterationFor, Carry, BeginsIn;
    var none := Layout(ABSENT, ABSENT, ABSENT);
    AloneInNone(file, layout, initial, k);
    AbsentIsIdle(k);
    CursorConservation(file, none, initial, k);
  }

  lemma {:induction false} AloneInNone(file: seq<Byte>, layout: Layout, initial: seq<Byte>, k: nat)
    requires k <= FirstChunk(layout.digest) && k <= FirstChunk(layout.signature) && k <= FirstChunk(layout.key)
    requires CHUNK * k <= |file| && |initial| == CHUNK
    ensures After(file, layout, initial, k) == After(file, Layout(ABSENT, ABSENT, ABSENT), initial, k)
  {
    hide Iteration, ReadRest, SkipCarried, BeginsIn;
    if k > 0 {
      AloneInNone(file, layout, initial, k - 1);
      var none, loop := Layout(ABSENT, ABSENT, ABSENT), After(file, layout, initial, k - 1);
      AbsentIsIdle(k - 1);
      CursorConservation(file, none, initial, k - 1);
      BeginsExactly(layout.digest, k - 1);
      BeginsExactly(layout.signature, k - 1);
      BeginsExactly(layout.key, k - 1);
      OnlyBegins(file, layout, layout.digest, layout.signature, layout.key, loop);
      OnlyBegins(file, none, ABSENT, ABSENT, ABSENT, loop);
    }
  }

  /** All three begin inside one chunk, in the order of the code, and lie in the file. */
  ghost predicate InOneChunk(layout: Layout, size: nat) {
    var a, b, c := layout.digest, layout.signature, layout.key;
    && a.Present() && b.Present() && c.Present() && a.offset % CHUNK != 0
    && a.offset + a.length <= b.offset && b.offset + b.length <= c.offset && c.offset + c.length <= size
    && FirstChunk(a) == FirstChunk(b) == FirstChunk(c)
  }

  /** Where the cursor is, relative to the chunk, when the key is looked for. */
  function CursorAtKey(layout: Layout): nat {
    var passed := layout.digest.offset % CHUNK + layout.digest.length;
    var both := passed + layout.signature.offset % CHUNK + layout.signature.length;
    passed + if both <= CHUNK then both else CHUNK
  }

  lemma KeyIsReadFrom(file: seq<Byte>, layout: Layout, loop: Loop<Byte>, i: nat)
    requires InOneChunk(layout, |file|) && layout.key.length >= 2 * CHUNK
    requires |loop.buffer| == CHUNK && loop.pos == CHUNK * FirstChunk(layout.key) && loop.carry == 0
    requires i < layout.key.offset % CHUNK
    ensures loop.pos + CursorAtKey(layout) + i < |file|
    ensures Iteration(file, layout, loop).buffer[i] == file[loop.pos + CursorAtKey(layout) + i]
  {
    hide ReadRest, SkipSection, ReadAt, Overwrite;
    var a, b, c, start := layout.digest, layout.signature, layout.key, loop.pos;
    BeginsExactly(a, FirstChunk(c));
    BeginsExactly(b, FirstChunk(c));
    BeginsExactly(c, FirstChunk(c));
    var s0 := SkipCarried(loop);
    CursorAfter(file, a, start, s0);
    var s1 := SkipSection(file, a, start, s0);
    CursorAfter(file, b, start, s1);
    var s2 := SkipSection(file, b, start, s1);
    PrefixIsRead(file, c, start, s2, i);
    RestKeepsFront(file, SkipSection(file, c, start, s2), i);
  }

  lemma CursorAfter(file: seq<Byte>, s: Section, start: nat, step: Step<Byte>)
    requires BeginsIn(s, start) && 0 <= step.left <= CHUNK == |step.loop.buffer|
    requires step.loop.pos + (s.offset - start) <= |file|
    ensures var after, left := SkipSection(file, s, start, step), step.left - (s.offset - start) - s.length;
            && |after.loop.buffer| == CHUNK
            && after.left == (if left < 0 then 0 else left)
            && after.loop.pos == step.loop.pos + CHUNK - after.left
  {
    hide ReadAt, Overwrite;
    ReadLength(file, step.loop.pos, s.offset - start);
  }

  /** With a key of two chunks or more, as in the AppImages whose three sections begin in one
      chunk, the key is read: the cursor cannot have moved beyond it. */
  lemma LongKeyInterferes(layout: Layout, size: nat)
    requires InOneChunk(layout, size) && layout.key.length >= 2 * CHUNK
    ensures !NonInterfering(layout, size)
  {
    hide After, Iteration, NonInterfering, CursorAtKey, Covered, Chunks, Feeds;
    var k, z, at := FirstChunk(layout.key), layout.key.offset % CHUNK, CursorAtKey(layout);
    CursorInKey(layout, size);
    var i := if at < z then z - at else 0;
    var p := CHUNK * k + at + i;
    ChunkOfOffset(layout.key, size);
    forall file: seq<Byte>, initial: seq<Byte> | |file| == size && |initial| == CHUNK
      ensures Feeds(file, layout, initial, k, i, p)
    {
      LongKeyFeeds(file, layout, initial, i);
    }
    PairCovers(layout, layout.digest, layout.signature, layout.key, p);
    FedFromInterferes(layout, size, k, i, p);
  }

  lemma LongKeyFeeds(file: seq<Byte>, layout: Layout, initial: seq<Byte>, i: nat)
    requires InOneChunk(layout, |file|) && layout.key.length >= 2 * CHUNK && |initial| == CHUNK
    requires i < layout.key.offset % CHUNK
    ensures var k := FirstChunk(layout.key);
            var p := CHUNK * k + CursorAtKey(layout) + i;
            p < |file| && Feeds(file, layout, initial, k, i, p)
  {
    hide After, Iteration, CursorAtKey;
    var k := FirstChunk(layout.key);
    NothingUntil(file, layout, initial, k);
    AfterNext(file, layout, initial, k);
    KeyIsReadFrom(file, layout, After(file, layout, initial, k), i);
  }

  lemma CursorInKey(layout: Layout, size: nat)
    requires InOneChunk(layout, size) && layout.key.length >= 2 * CHUNK
    ensures var z, at := layout.key.offset % CHUNK, CursorAtKey(layout);
            0 < at < z + layout.key.length && z < CHUNK && 0 < z
    ensures CHUNK * FirstChunk(layout.key) + layout.key.offset % CHUNK == layout.key.offset
  {
  }

  // The AppImages of tests/data: one with all three sections in a chunk, one with two

  const HELLO_WORLD := Layout(Section(181119, 16), Section(182159, 1024), Section(183183, 8192))
  const ECHO := Layout(Section(175096, 16), Section(176136, 1024), Section(177160, 8192))

  lemma SampleAppImagesInterfere()
    ensures !NonInterfering(HELLO_WORLD, 197824) && !NonInterfering(ECHO, 212360)
  {
    hide NonInterfering;
    LongKeyInterferes(HELLO_WORLD, 197824);
    OnePairInterferes(ECHO, 212360);
  }

  const THREE := Layout(Section(20, 1), Section(10, 1), Section(50, 1))

  lemma WholePrefix(file: seq<Byte>, s: Section, start: nat, step: Step<Byte>)
    requires BeginsIn(s, start) && |step.loop.buffer| == CHUNK
    requires s.offset - start + s.length <= step.left <= CHUNK && step.loop.pos + (s.offset - start) <= |file|
    ensures var begin, after := s.offset - start, SkipSection(file, s, start, step);
            && after.left == step.left - begin - s.length
            && after.loop.pos == step.loop.pos + CHUNK - after.left
            && after.loop.carry == step.loop.carry
            && forall i: nat | i < CHUNK ::
                 after.loop.buffer[i] == if i < begin then file[step.loop.pos + i] else step.loop.buffer[i]
  {
  }

  lemma ThreeInOne(file: seq<Byte>, initial: seq<Byte>)
    requires |file| == CHUNK == |initial|
    ensures forall i: nat | i < CHUNK ::
              Iteration(file, THREE, Loop(0, 0, initial)).buffer[i]
              == if i < 50 || 83 <= i < 4043 then file[53 + i] else initial[i]
  {
    hide SkipSection;
    var s0 := SkipCarried(Loop(0, 0, initial));
    WholePrefix(file, THREE.digest, 0, s0);
    var s1 := SkipSection(file, THREE.digest, 0, s0);
    WholePrefix(file, THREE.signature, 0, s1);
    var s2 := SkipSection(file, THREE.signature, 0, s1);
    WholePrefix(file, THREE.key, 0, s2);
    var s3 := SkipSection(file, THREE.key, 0, s2);
    assert s3.loop.pos == 136 && s3.left == 4013;
    assert ReadAt(file, 136, 4013) == file[136..];
  }

  /** These three lie in one chunk too, in another order, and their bytes do not reach the digest:
      the last read overwrites what the others have let in. */
  lemma ThreeSectionsMayShare()
    ensures WellPlaced(THREE.digest) && WellPlaced(THREE.signature) && WellPlaced(THREE.key)
    ensures ShareChunk(THREE.digest, THREE.signature) && ShareChunk(THREE.digest, THREE.key)
    ensures NonInterfering(THREE, CHUNK)
  {
    hide Iteration, Fed, After;
    assert Chunks(CHUNK) == 1;
    forall f, g, initial | |f| == CHUNK && AgreeOutside(f, g, THREE) && |initial| == CHUNK
      ensures Fed(f, THREE, initial, 1) == Fed(g, THREE, initial, 1)
    {
      FirstFed(f, initial);
      FirstFed(g, initial);
      ThreeInOne(f, initial);
      ThreeInOne(g, initial);
      assert Fed(f, THREE, initial, 1) == Fed(g, THREE, initial, 1);
    }
  }

  lemma FirstFed(file: seq<Byte>, initial: seq<Byte>)
    requires |initial| == CHUNK
    ensures Fed(file, THREE, initial, 1) == Iteration(file, THREE, Loop(0, 0, initial)).buffer
  {
    hide Iteration;
    AfterStart(file, THREE, initial);
    AfterNext(file, THREE, initial, 0);
  }
}
