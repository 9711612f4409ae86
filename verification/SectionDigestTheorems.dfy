/** What the digest loop feeds to MD5, byte by byte, and which layouts keep the section bytes
    out of it. */
module SectionDigestTheorems {
  import opened Rfc1321
  import opened SectionDigest

  // Sections and chunks

  function FirstChunk(s: Section): nat { s.offset / CHUNK }

  function LastChunk(s: Section): nat
    requires s.Present()
  {
    (s.offset + s.length - 1) / CHUNK
  }

  predicate Touches(s: Section, k: nat) {
    s.Present() && FirstChunk(s) <= k <= LastChunk(s)
  }

  predicate ShareChunk(s: Section, t: Section) {
    s.Present() && t.Present() && FirstChunk(s) <= LastChunk(t) && FirstChunk(t) <= LastChunk(s)
  }

  predicate NoSharedChunk(layout: Layout) {
    && !ShareChunk(layout.digest, layout.signature)
    && !ShareChunk(layout.digest, layout.key)
    && !ShareChunk(layout.signature, layout.key)
  }

  predicate Covers(s: Section, p: nat) { s.Present() && s.offset <= p < s.offset + s.length }

  predicate Covered(layout: Layout, p: nat) {
    Covers(layout.digest, p) || Covers(layout.signature, p) || Covers(layout.key, p)
  }

  // What the loop makes of one section

  /** The loop notices a section only inside a chunk, not at its start. */
  predicate Noticed(s: Section) { s.Present() && s.offset % CHUNK != 0 }

  /** How far a section reaches beyond the chunk it begins in. */
  function Overhang(s: Section): nat {
    var end := s.offset % CHUNK + s.length;
    if end > CHUNK then end - CHUNK else 0
  }

  /** The bytes still to skip, m chunks after the one that set the carry. */
  function CarryAfter(overhang: nat, m: nat): nat {
    if m == 0 then overhang else
      var carry := CarryAfter(overhang, m - 1);
      carry - SkipOf(carry)
  }

  /** bytes_skip_following_chunks at the start of chunk k, on account of s. */
  function Carry(s: Section, k: nat): nat {
    if Noticed(s) && FirstChunk(s) < k <= LastChunk(s) then CarryAfter(Overhang(s), k - FirstChunk(s) - 1) else 0
  }

  /** The loop seeks over byte i of chunk k on account of s. */
  predicate Skips(s: Section, k: nat, i: nat) {
    i < CHUNK && Noticed(s)
    && if k == FirstChunk(s) then s.offset % CHUNK <= i < s.offset % CHUNK + s.length
       else FirstChunk(s) < k <= LastChunk(s) && i < SkipOf(Carry(s, k))
  }

  predicate Skipped(layout: Layout, k: nat, i: nat) {
    Skips(layout.digest, k, i) || Skips(layout.signature, k, i) || Skips(layout.key, k, i)
  }

  lemma {:induction false} CarryChunks(overhang: nat, m: nat)
    ensures var chunks := (overhang + CHUNK - 1) / CHUNK;
            (CarryAfter(overhang, m) + CHUNK - 1) / CHUNK == if m < chunks then chunks - m else 0
  {
    if m > 0 {
      CarryChunks(overhang, m - 1);
      SkipTakesOneChunk(CarryAfter(overhang, m - 1));
    }
  }

  lemma SkipTakesOneChunk(carry: nat)
    ensures var chunks := (carry + CHUNK - 1) / CHUNK;
            (carry - SkipOf(carry) + CHUNK - 1) / CHUNK == if chunks == 0 then 0 else chunks - 1
  {
  }

  lemma OverhangChunks(s: Section)
    requires s.Present()
    ensures (Overhang(s) + CHUNK - 1) / CHUNK == LastChunk(s) - FirstChunk(s)
  {
  }

  /** The carry is positive up to the last chunk of the section, and used up there. */
  lemma CarryLasts(s: Section, k: nat)
    requires Noticed(s) && FirstChunk(s) < k
    ensures CarryAfter(Overhang(s), k - FirstChunk(s) - 1) > 0 <==> k <= LastChunk(s)
    ensures Carry(s, k) == CarryAfter(Overhang(s), k - FirstChunk(s) - 1)
    ensures Carry(s, k + 1) == Carry(s, k) - SkipOf(Carry(s, k))
  {
    OverhangChunks(s);
    CarryChunks(Overhang(s), k - FirstChunk(s) - 1);
    CarryChunks(Overhang(s), k - FirstChunk(s));
  }

  lemma CarryStarts(s: Section)
    requires Noticed(s)
    ensures Carry(s, FirstChunk(s) + 1) == Overhang(s)
  {
    OverhangChunks(s);
  }

  lemma BeginsExactly(s: Section, k: nat)
    ensures BeginsIn(s, CHUNK * k) <==> Noticed(s) && FirstChunk(s) == k
    ensures BeginsIn(s, CHUNK * k) ==> s.offset - CHUNK * k == s.offset % CHUNK
  {
  }

  // One chunk that only the section s may touch

  /** The loop body with s as the only section. */
  function IterationFor(file: seq<Byte>, s: Section, loop: Loop<Byte>): (r: Loop<Byte>)
    requires |loop.buffer| == CHUNK
    ensures |r.buffer| == CHUNK
  {
    ReadRest(file, SkipSection(file, s, loop.pos, SkipCarried(loop)))
  }

  /** chunk holds, from byte from up to byte upto, the bytes of the file where there are any,
      and otherwise what old holds. */
  ghost predicate Reads(file: seq<Byte>, k: nat, from: nat, upto: nat, old_: seq<Byte>, chunk: seq<Byte>)
    requires |old_| == |chunk| == CHUNK && upto <= CHUNK
  {
    forall i: nat | i < CHUNK ::
      chunk[i] == if from <= i < upto && CHUNK * k + i < |file| then file[CHUNK * k + i] else old_[i]
  }

  lemma OverwriteReads(file: seq<Byte>, k: nat, at: nat, n: nat, buffer: seq<Byte>)
    requires |buffer| == CHUNK && at + n <= CHUNK
    ensures var bytes := ReadAt(file, CHUNK * k + at, n);
            Reads(file, k, at, at + n, buffer, Overwrite(buffer, at, bytes))
    ensures CHUNK * (k + 1) <= |file| ==> |ReadAt(file, CHUNK * k + at, n)| == n
  {
  }

  ghost predicate ChunkOf(file: seq<Byte>, s: Section, k: nat, before: Loop<Byte>, after: Loop<Byte>)
    requires |before.buffer| == |after.buffer| == CHUNK
  {
    && after.carry == Carry(s, k + 1)
    && (CHUNK * (k + 1) <= |file| ==> after.pos == CHUNK * (k + 1))
    && forall i: nat | i < CHUNK ::
         after.buffer[i] == if CHUNK * k + i < |file| && !Skips(s, k, i) then file[CHUNK * k + i] else before.buffer[i]
  }

  lemma ChunkWithCarry(file: seq<Byte>, s: Section, k: nat, loop: Loop<Byte>)
    requires |loop.buffer| == CHUNK && loop.pos == CHUNK * k && loop.carry == Carry(s, k)
    requires !(Noticed(s) && FirstChunk(s) == k)
    ensures ChunkOf(file, s, k, loop, IterationFor(file, s, loop))
  {
    hide Overwrite, ReadAt, SkipOf, CarryAfter;
    BeginsExactly(s, k);
    var skip := SkipOf(loop.carry);
    OverwriteReads(file, k, skip, CHUNK - skip, loop.buffer);
    if Noticed(s) && FirstChunk(s) < k {
      CarryLasts(s, k);
    } else {
      NoCarry(s, k);
    }
    SkipAll(loop.carry);
  }

  lemma NoCarry(s: Section, k: nat)
    requires !(Noticed(s) && FirstChunk(s) <= k)
    ensures Carry(s, k) == 0 && Carry(s, k + 1) == 0
  {
  }

  lemma SkipAll(carry: nat)
    ensures SkipOf(carry) <= CHUNK && (carry == 0 ==> SkipOf(carry) == 0)
  {
  }

  lemma ChunkWithBegin(file: seq<Byte>, s: Section, k: nat, loop: Loop<Byte>)
    requires |loop.buffer| == CHUNK && loop.pos == CHUNK * k && loop.carry == Carry(s, k)
    requires Noticed(s) && FirstChunk(s) == k
    ensures ChunkOf(file, s, k, loop, IterationFor(file, s, loop))
  {
    hide Overwrite, ReadAt, CarryAfter;
    BeginsExactly(s, k);
    CarryStarts(s);
    var begin := s.offset % CHUNK;
    OverwriteReads(file, k, 0, begin, loop.buffer);
    ReadLength(file, CHUNK * k, begin);
    var bytes := ReadAt(file, CHUNK * k, begin);
    var front := Overwrite(loop.buffer, 0, bytes);
    var from := begin + s.length;
    if from < CHUNK {
      if |bytes| == begin {
        OverwriteReads(file, k, from, CHUNK - from, front);
      } else {
        ReadPastEnd(file, CHUNK * k + |bytes| + s.length, CHUNK - from, front, from);
      }
    }
  }

  lemma ReadLength(file: seq<Byte>, pos: nat, n: nat)
    ensures |ReadAt(file, pos, n)| == n || pos + |ReadAt(file, pos, n)| >= |file|
    ensures pos + n <= |file| ==> |ReadAt(file, pos, n)| == n
    ensures |ReadAt(file, pos, n)| < n ==> pos + n > |file|
  {
  }

  lemma ReadPastEnd(file: seq<Byte>, pos: nat, n: nat, buffer: seq<Byte>, at: nat)
    requires pos >= |file| && at + n == |buffer|
    ensures Overwrite(buffer, at, ReadAt(file, pos, n)) == buffer
  {
    assert buffer[..at] + buffer[at..] == buffer;
  }

  // One chunk of a layout in which no two sections share a chunk

  function LayoutCarry(layout: Layout, k: nat): nat {
    Carry(layout.digest, k) + Carry(layout.signature, k) + Carry(layout.key, k)
  }

  ghost predicate ChunkOfLayout(file: seq<Byte>, layout: Layout, k: nat, before: Loop<Byte>, after: Loop<Byte>)
    requires |before.buffer| == |after.buffer| == CHUNK
  {
    && after.carry == LayoutCarry(layout, k + 1)
    && (CHUNK * (k + 1) <= |file| ==> after.pos == CHUNK * (k + 1))
    && forall i: nat | i < CHUNK ::
         after.buffer[i] == if CHUNK * k + i < |file| && !Skipped(layout, k, i) then file[CHUNK * k + i] else before.buffer[i]
  }

  ghost predicate Idle(t: Section, k: nat) {
    Carry(t, k) == 0 && Carry(t, k + 1) == 0 && !BeginsIn(t, CHUNK * k) && forall i: nat :: !Skips(t, k, i)
  }

  lemma UntouchedIsIdle(t: Section, k: nat)
    requires !Touches(t, k)
    ensures Idle(t, k)
  {
    hide CarryAfter, SkipOf;
    BeginsExactly(t, k);
  }

  lemma ChunkFor(file: seq<Byte>, s: Section, k: nat, loop: Loop<Byte>)
    requires |loop.buffer| == CHUNK && loop.pos == CHUNK * k && loop.carry == Carry(s, k)
    ensures ChunkOf(file, s, k, loop, IterationFor(file, s, loop))
  {
    hide Carry, IterationFor, ChunkOf;
    if Noticed(s) && FirstChunk(s) == k {
      ChunkWithBegin(file, s, k, loop);
    } else {
      ChunkWithCarry(file, s, k, loop);
    }
  }

  lemma IterationChunk(file: seq<Byte>, layout: Layout, k: nat, loop: Loop<Byte>)
    requires NoSharedChunk(layout)
    requires |loop.buffer| == CHUNK && loop.pos == CHUNK * k && loop.carry == LayoutCarry(layout, k)
    ensures ChunkOfLayout(file, layout, k, loop, Iteration(file, layout, loop))
  {
    hide Carry, Skips, ReadRest, SkipCarried, BeginsIn, Section.Present, FirstChunk, LastChunk;
    var a, b, c := layout.digest, layout.signature, layout.key;
    if !Touches(b, k) && !Touches(c, k) {
      UntouchedIsIdle(b, k);
      UntouchedIsIdle(c, k);
      ChunkFor(file, a, k, loop);
    } else if !Touches(a, k) && !Touches(c, k) {
      UntouchedIsIdle(a, k);
      UntouchedIsIdle(c, k);
      ChunkFor(file, b, k, loop);
    } else {
      UntouchedIsIdle(a, k);
      UntouchedIsIdle(b, k);
      ChunkFor(file, c, k, loop);
    }
  }

  // Whole runs

  /** Iteration k begins at file offset 4096 k, whatever has been skipped before, and the carry
      is what the sections passed so far have left over. */
  lemma {:induction false} CursorConservation(file: seq<Byte>, layout: Layout, initial: seq<Byte>, k: nat)
    requires NoSharedChunk(layout) && |initial| == CHUNK
    requires CHUNK * k <= |file|
    ensures After(file, layout, initial, k).pos == CHUNK * k
    ensures After(file, layout, initial, k).carry == LayoutCarry(layout, k)
  {
    hide Iteration, LayoutCarry;
    if k > 0 {
      CursorConservation(file, layout, initial, k - 1);
      IterationChunk(file, layout, k - 1, After(file, layout, initial, k - 1));
    } else {
      NoCarryAtStart(layout);
    }
  }

  lemma NoCarryAtStart(layout: Layout)
    ensures LayoutCarry(layout, 0) == 0
  {
  }

  /** The k-th chunk: file bytes where there are any and nothing is skipped, and what the chunk
      before has left in the buffer everywhere else. */
  lemma FedChunk(file: seq<Byte>, layout: Layout, initial: seq<Byte>, k: nat, i: nat)
    requires NoSharedChunk(layout) && |initial| == CHUNK
    requires k < Chunks(|file|) && i < CHUNK
    ensures After(file, layout, initial, k + 1).buffer[i]
            == if CHUNK * k + i < |file| && !Skipped(layout, k, i) then file[CHUNK * k + i]
               else After(file, layout, initial, k).buffer[i]
  {
    hide Iteration, LayoutCarry, Skipped;
    CursorConservation(file, layout, initial, k);
    IterationChunk(file, layout, k, After(file, layout, initial, k));
  }

  lemma {:induction false} FedIndex(file: seq<Byte>, layout: Layout, initial: seq<Byte>, n: nat, k: nat, i: nat)
    requires |initial| == CHUNK && k < n && i < CHUNK
    ensures Fed(file, layout, initial, n)[CHUNK * k + i] == After(file, layout, initial, k + 1).buffer[i]
  {
    hide After;
    if k < n - 1 {
      FedIndex(file, layout, initial, n - 1, k, i);
    }
  }

  lemma FedAtIndex(file: seq<Byte>, layout: Layout, initial: seq<Byte>, n: nat, k: nat, i: nat)
    requires NoSharedChunk(layout) && |initial| == CHUNK
    requires k < n == Chunks(|file|) && i < CHUNK
    requires CHUNK * k + i < |file| && !Skipped(layout, k, i)
    ensures Fed(file, layout, initial, n)[CHUNK * k + i] == file[CHUNK * k + i]
  {
    hide Skipped, After, Fed, NoSharedChunk, Chunks;
    FedChunk(file, layout, initial, k, i);
    FedIndex(file, layout, initial, n, k, i);
  }

  /** A byte of the file that is not skipped is fed at its own position. */
  lemma FedAtPosition(file: seq<Byte>, layout: Layout, initial: seq<Byte>, p: nat)
    requires NoSharedChunk(layout) && |initial| == CHUNK
    requires p < |file| && !Skipped(layout, p / CHUNK, p % CHUNK)
    ensures CHUNK * Chunks(|file|) >= |file| && Fed(file, layout, initial, Chunks(|file|))[p] == file[p]
  {
    hide Skipped, Fed, NoSharedChunk, Chunks;
    PositionInChunk(|file|, p);
    FedAtIndex(file, layout, initial, Chunks(|file|), p / CHUNK, p % CHUNK);
  }

  lemma PositionInChunk(size: nat, p: nat)
    requires p < size
    ensures p / CHUNK < Chunks(size) && CHUNK * (p / CHUNK) + p % CHUNK == p
  {
  }

  // Non-interference

  ghost predicate AgreeOutside(f: seq<Byte>, g: seq<Byte>, layout: Layout) {
    |f| == |g| && forall p: nat | p < |f| && !Covered(layout, p) :: f[p] == g[p]
  }

  /** Files of this size that differ only inside the sections are fed as the same bytes. */
  ghost predicate NonInterfering(layout: Layout, size: nat) {
    forall f, g, initial | |f| == size && AgreeOutside(f, g, layout) && |initial| == CHUNK ::
      Fed(f, layout, initial, Chunks(size)) == Fed(g, layout, initial, Chunks(size))
  }

  /** Every section byte of the file is skipped. */
  ghost predicate AllSkipped(layout: Layout, size: nat) {
    forall p: nat | p < size && Covered(layout, p) :: Skipped(layout, p / CHUNK, p % CHUNK)
  }

  lemma {:induction false} SameBuffers(f: seq<Byte>, g: seq<Byte>, layout: Layout, initial: seq<Byte>, k: nat)
    requires NoSharedChunk(layout) && |initial| == CHUNK
    requires AgreeOutside(f, g, layout) && AllSkipped(layout, |f|) && k <= Chunks(|f|)
    ensures After(f, layout, initial, k).buffer == After(g, layout, initial, k).buffer
  {
    hide Covered, Skipped, Iteration;
    if k > 0 {
      SameBuffers(f, g, layout, initial, k - 1);
      forall i: nat | i < CHUNK
        ensures After(f, layout, initial, k).buffer[i] == After(g, layout, initial, k).buffer[i]
      {
        FedChunk(f, layout, initial, k - 1, i);
        FedChunk(g, layout, initial, k - 1, i);
        SplitPosition(k - 1, i);
      }
    }
  }

  lemma SplitPosition(k: nat, i: nat)
    requires i < CHUNK
    ensures (CHUNK * k + i) / CHUNK == k && (CHUNK * k + i) % CHUNK == i
  {
  }

  lemma {:induction false} SameFed(f: seq<Byte>, g: seq<Byte>, layout: Layout, initial: seq<Byte>, k: nat)
    requires NoSharedChunk(layout) && |initial| == CHUNK
    requires AgreeOutside(f, g, layout) && AllSkipped(layout, |f|) && k <= Chunks(|f|)
    ensures Fed(f, layout, initial, k) == Fed(g, layout, initial, k)
  {
    hide After, AgreeOutside, AllSkipped, NoSharedChunk;
    if k > 0 {
      SameFed(f, g, layout, initial, k - 1);
      SameBuffers(f, g, layout, initial, k);
    }
  }

  /** The loop is non-interfering exactly when it skips every section byte. */
  lemma NonInterferenceExactly(layout: Layout, size: nat)
    requires NoSharedChunk(layout)
    ensures NonInterfering(layout, size) <==> AllSkipped(layout, size)
  {
    hide After, Fed, Covered, Skipped, NoSharedChunk;
    if AllSkipped(layout, size) {
      forall f, g, initial | |f| == size && AgreeOutside(f, g, layout) && |initial| == CHUNK
        ensures Fed(f, layout, initial, Chunks(size)) == Fed(g, layout, initial, Chunks(size))
      {
        SameFed(f, g, layout, initial, Chunks(size));
      }
    } else {
      var p: nat :| p < size && Covered(layout, p) && !Skipped(layout, p / CHUNK, p % CHUNK);
      var f, initial := Zeros(size), Zeros(CHUNK);
      var g := f[p := Byte(1)];
      FedAtPosition(f, layout, initial, p);
      FedAtPosition(g, layout, initial, p);
      assert AgreeOutside(f, g, layout);
      assert Fed(f, layout, initial, Chunks(size)) != Fed(g, layout, initial, Chunks(size));
    }
  }

  // Which layouts these are

  /** A section must not begin on a chunk boundary, and what reaches beyond its first chunk
      must be at most one chunk or a whole number of chunks. */
  predicate WellPlaced(s: Section) {
    s.Present() ==> s.offset % CHUNK != 0 && (Overhang(s) <= CHUNK || Overhang(s) % CHUNK == 0)
  }

  lemma {:induction false} CarryOfWellPlaced(overhang: nat, m: nat)
    requires overhang <= CHUNK || overhang % CHUNK == 0
    ensures CarryAfter(overhang, m) == if CHUNK * m <= overhang then overhang - CHUNK * m else 0
  {
    if m > 0 {
      CarryOfWellPlaced(overhang, m - 1);
    }
  }

  /** For a well-placed section the bytes skipped are the bytes of the section. */
  lemma SkipsAreTheSection(s: Section, k: nat, i: nat)
    requires WellPlaced(s) && s.Present() && i < CHUNK
    ensures Skips(s, k, i) <==> Covers(s, CHUNK * k + i)
  {
    hide CarryAfter;
    if FirstChunk(s) < k <= LastChunk(s) {
      CarryOfWellPlaced(Overhang(s), k - FirstChunk(s) - 1);
    }
  }

  /** Every other section has a byte that is read. */
  lemma UnskippedByte(s: Section) returns (p: nat)
    requires s.Present() && !WellPlaced(s)
    ensures Covers(s, p) && !Skips(s, p / CHUNK, p % CHUNK)
    ensures FirstChunk(s) < LastChunk(s) ==> p / CHUNK < LastChunk(s)
  {
    if s.offset % CHUNK == 0 {
      p := s.offset;
    } else {
      var k := FirstChunk(s) + 1;
      p := CHUNK * k + Overhang(s) % CHUNK;
      SplitPosition(k, Overhang(s) % CHUNK);
    }
  }

  lemma SkipsOnlyTouched(s: Section, k: nat, i: nat)
    requires Skips(s, k, i)
    ensures Touches(s, k)
  {
  }

  lemma CoversOnlyTouched(s: Section, p: nat)
    requires Covers(s, p)
    ensures Touches(s, p / CHUNK)
  {
  }

  ghost predicate Inside(s: Section, size: nat) { s.Present() ==> s.offset + s.length <= size }

  lemma WellPlacedIsSkipped(s: Section, p: nat)
    requires WellPlaced(s)
    ensures Covers(s, p) ==> Skips(s, p / CHUNK, p % CHUNK)
  {
    hide Skips, WellPlaced;
    if Covers(s, p) {
      SkipsAreTheSection(s, p / CHUNK, p % CHUNK);
    }
  }

  /** When no chunk is shared, a byte of s is skipped on account of s or not at all. */
  lemma SkippedByItself(layout: Layout, s: Section, p: nat)
    requires NoSharedChunk(layout) && s in {layout.digest, layout.signature, layout.key}
    requires Covers(s, p) && Skipped(layout, p / CHUNK, p % CHUNK)
    ensures Skips(s, p / CHUNK, p % CHUNK)
  {
    hide Skips, Covers, FirstChunk, LastChunk;
    CoversOnlyTouched(s, p);
    var k, i := p / CHUNK, p % CHUNK;
    var t :| t in {layout.digest, layout.signature, layout.key} && Skips(t, k, i);
    SkipsOnlyTouched(t, k, i);
  }

  /** The main result: for sections inside the file of which no two share a chunk, the digest
      is independent of the section bytes if and only if all of them are well placed. */
  lemma NonInterferenceByLayout(layout: Layout, size: nat)
    requires NoSharedChunk(layout)
    requires Inside(layout.digest, size) && Inside(layout.signature, size) && Inside(layout.key, size)
    ensures NonInterfering(layout, size)
            <==> WellPlaced(layout.digest) && WellPlaced(layout.signature) && WellPlaced(layout.key)
  {
    hide NoSharedChunk, Skips, Covers, WellPlaced;
    NonInterferenceExactly(layout, size);
    forall s | s in {layout.digest, layout.signature, layout.key}
      ensures AllSkipped(layout, size) ==> WellPlaced(s)
    {
      if !WellPlaced(s) {
        PlacementNeeded(layout, s, size);
      }
    }
    if WellPlaced(layout.digest) && WellPlaced(layout.signature) && WellPlaced(layout.key) {
      forall p: nat | p < size && Covered(layout, p) ensures Skipped(layout, p / CHUNK, p % CHUNK) {
        WellPlacedIsSkipped(layout.digest, p);
        WellPlacedIsSkipped(layout.signature, p);
        WellPlacedIsSkipped(layout.key, p);
      }
    }
  }

  lemma PlacementNeeded(layout: Layout, s: Section, size: nat)
    requires NoSharedChunk(layout) && s in {layout.digest, layout.signature, layout.key}
    requires Inside(s, size) && !WellPlaced(s)
    ensures !AllSkipped(layout, size)
  {
    hide NoSharedChunk, Skips;
    var p := UnskippedByte(s);
    if AllSkipped(layout, size) {
      SkippedByItself(layout, s, p);
    }
  }

  /** And then nothing else is left out: every byte of the file outside the sections is fed at
      its own position. */
  lemma OutsideBytesAreFed(file: seq<Byte>, layout: Layout, initial: seq<Byte>, p: nat)
    requires NoSharedChunk(layout) && |initial| == CHUNK
    requires WellPlaced(layout.digest) && WellPlaced(layout.signature) && WellPlaced(layout.key)
    requires p < |file| && !Covered(layout, p)
    ensures CHUNK * Chunks(|file|) >= |file| && Fed(file, layout, initial, Chunks(|file|))[p] == file[p]
  {
    hide Skips, WellPlaced, NoSharedChunk, Fed;
    forall s | s in {layout.digest, layout.signature, layout.key}
      ensures !Skips(s, p / CHUNK, p % CHUNK)
    {
      NotSkippedOutside(s, p);
    }
    FedAtPosition(file, layout, initial, p);
  }

  lemma NotSkippedOutside(s: Section, p: nat)
    requires WellPlaced(s) && !Covers(s, p)
    ensures !Skips(s, p / CHUNK, p % CHUNK)
  {
    if s.Present() {
      SkipsAreTheSection(s, p / CHUNK, p % CHUNK);
    }
  }
}
