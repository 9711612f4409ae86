/** src/libappimage_shared/digest.c: the digest of a file with up to three ELF sections left
    out. The file is fed in chunks of 4096 bytes, and section bytes are seeked over. */
module SectionDigest {
  import opened Rfc1321
  import Md5

  const CHUNK := 4096

  /** As the ELF section table gives it; offset or length 0 stands for a missing section. */
  datatype Section = Section(offset: nat, length: nat) {
    predicate Present() { offset != 0 && length != 0 }
  }

  datatype Layout = Layout(digest: Section, signature: Section, key: Section)

  /** The variables that survive an iteration, and those that do not. The buffer is never
      cleared: what a chunk does not read keeps the bytes of the chunk before. */
  datatype Loop<T> = Loop(pos: nat, carry: nat, buffer: seq<T>)

  datatype Step<T> = Step(loop: Loop<T>, left: int)

  // The C library calls

  function ReadAt<T>(file: seq<T>, pos: nat, n: nat): (bytes: seq<T>)
    ensures |bytes| <= n
  {
    if pos >= |file| then [] else if pos + n <= |file| then file[pos..pos + n] else file[pos..]
  }

  function Overwrite<T>(buffer: seq<T>, at: nat, bytes: seq<T>): (r: seq<T>)
    requires at + |bytes| <= |buffer|
    ensures |r| == |buffer|
  {
    buffer[..at] + bytes + buffer[at + |bytes|..]
  }

  // The loop body, statement by statement

  /** bytes_skip_this_chunk */
  function SkipOf(carry: nat): (skip: nat)
    ensures skip <= carry && skip <= CHUNK
  {
    if carry == 0 then 0 else if carry % CHUNK == 0 then CHUNK else carry % CHUNK
  }

  function SkipCarried<T>(loop: Loop<T>): (s: Step<T>)
    ensures s.left <= CHUNK && s.loop.buffer == loop.buffer
  {
    var skip := SkipOf(loop.carry);
    Step(loop.(pos := loop.pos + skip, carry := loop.carry - skip), CHUNK - skip)
  }

  /** The test that a section begins in the chunk that begins at start. */
  predicate BeginsIn(section: Section, start: nat) {
    section.Present() && 0 < section.offset - start < CHUNK
  }

  function SkipSection<T>(file: seq<T>, section: Section, start: nat, s: Step<T>): (r: Step<T>)
    requires s.left <= CHUNK == |s.loop.buffer|
    ensures r.left <= CHUNK == |r.loop.buffer|
  {
    if !BeginsIn(section, start) then s else
      var begin := section.offset - start;
      var bytes := ReadAt(file, s.loop.pos, begin);
      var left := s.left - begin - section.length;
      var carry := if left < 0 then -left else s.loop.carry;
      var remaining := if left < 0 then 0 else left;
      Step(Loop(s.loop.pos + |bytes| + (CHUNK - remaining - begin), carry, Overwrite(s.loop.buffer, 0, bytes)), remaining)
  }

  function ReadRest<T>(file: seq<T>, s: Step<T>): (r: Loop<T>)
    requires s.left <= CHUNK == |s.loop.buffer|
    ensures |r.buffer| == CHUNK
  {
    if s.left <= 0 then s.loop else
      var bytes := ReadAt(file, s.loop.pos, s.left);
      s.loop.(pos := s.loop.pos + |bytes|, buffer := Overwrite(s.loop.buffer, CHUNK - s.left, bytes))
  }

  function Iteration<T>(file: seq<T>, layout: Layout, loop: Loop<T>): (r: Loop<T>)
    requires |loop.buffer| == CHUNK
    ensures |r.buffer| == CHUNK
  {
    var s0 := SkipCarried(loop);
    var s1 := SkipSection(file, layout.digest, loop.pos, s0);
    var s2 := SkipSection(file, layout.signature, loop.pos, s1);
    var s3 := SkipSection(file, layout.key, loop.pos, s2);
    ReadRest(file, s3)
  }

  /** The state after k iterations, from a buffer with the contents initial. */
  function After<T>(file: seq<T>, layout: Layout, initial: seq<T>, k: nat): (loop: Loop<T>)
    requires |initial| == CHUNK
    ensures |loop.buffer| == CHUNK
  {
    if k == 0 then Loop(0, 0, initial) else Iteration(file, layout, After(file, layout, initial, k - 1))
  }

  /** The bytes fed to MD5 by the first k iterations. */
  function Fed<T>(file: seq<T>, layout: Layout, initial: seq<T>, k: nat): (s: seq<T>)
    requires |initial| == CHUNK
    ensures |s| == CHUNK * k
  {
    if k == 0 then [] else Fed(file, layout, initial, k - 1) + After(file, layout, initial, k).buffer
  }

  lemma AfterStart<T>(file: seq<T>, layout: Layout, initial: seq<T>)
    requires |initial| == CHUNK
    ensures After(file, layout, initial, 0) == Loop(0, 0, initial)
    ensures Fed(file, layout, initial, 0) == []
  {
  }

  lemma AfterNext<T>(file: seq<T>, layout: Layout, initial: seq<T>, k: nat)
    requires |initial| == CHUNK
    ensures After(file, layout, initial, k + 1) == Iteration(file, layout, After(file, layout, initial, k))
    ensures Fed(file, layout, initial, k + 1)
            == Fed(file, layout, initial, k) + After(file, layout, initial, k + 1).buffer
  {
    hide Iteration;
  }

  /** ceil(size / 4096) */
  function Chunks(size: nat): (n: nat)
    ensures n * CHUNK >= size && (n > 0 ==> (n - 1) * CHUNK < size)
  {
    (size + CHUNK - 1) / CHUNK
  }

  /** A FILE opened for reading. */
  class Stream {
    const data: seq<Byte>
    var pos: nat

    constructor (data: seq<Byte>)
      ensures this.data == data && pos == 0
    {
      this.data := data;
      pos := 0;
    }

    /** fread: what there is, up to n bytes, and the cursor behind it */
    method Read(n: nat) returns (bytes: seq<Byte>)
      modifies this
      ensures bytes == ReadAt(data, old(pos), n) && pos == old(pos) + |bytes|
    {
      bytes := ReadAt(data, pos, n);
      pos := pos + |bytes|;
    }

    /** fseek(.., SEEK_CUR) */
    method Seek(n: nat)
      modifies this
      ensures pos == old(pos) + n
    {
      pos := pos + n;
    }
  }

  method CopyTo(buffer: array<Byte>, at: nat, bytes: seq<Byte>)
    requires at + |bytes| <= buffer.Length
    modifies buffer
    ensures buffer[..] == Overwrite(old(buffer[..]), at, bytes)
  {
    forall i | 0 <= i < |bytes| {
      buffer[at + i] := bytes[i];
    }
  }

  /** appimage_type2_digest_md5 on an open file whose sections have been looked up. */
  method DigestMd5(fp: Stream, layout: Layout, buffer: array<Byte>) returns (digest: seq<Byte>)
    requires fp.pos == 0 && buffer.Length == CHUNK
    modifies fp, buffer
    ensures digest == Digest(Fed(fp.data, layout, old(buffer[..]), Chunks(|fp.data|)))
  {
    hide Iteration, Fed, After, Digest, Md5.Context.Valid;
    var context := new Md5.Context();
    AfterStart(fp.data, layout, buffer[..]);
    var bytesLeft: int := |fp.data|;
    var carry: nat := 0;
    ghost var initial := buffer[..];
    ghost var k: nat := 0;
    while bytesLeft > 0
      invariant bytesLeft == |fp.data| - CHUNK * k
      invariant bytesLeft <= 0 ==> k == Chunks(|fp.data|)
      invariant Loop(fp.pos, carry, buffer[..]) == After(fp.data, layout, initial, k)
      invariant context.Valid() && fresh(context) && fresh(context.buffer) && fresh(context.block)
      invariant context.message == Fed(fp.data, layout, initial, k)
    {
      AfterNext(fp.data, layout, initial, k);
      carry := FillChunk(fp, layout, buffer, carry);
      context.Update(buffer[..]);
      bytesLeft := bytesLeft - CHUNK;
      k := k + 1;
    }
    digest := context.Finalise();
  }

  /** One iteration up to Md5Update. */
  method FillChunk(fp: Stream, layout: Layout, buffer: array<Byte>, carried: nat) returns (carry: nat)
    requires buffer.Length == CHUNK
    modifies fp, buffer
    ensures Loop(fp.pos, carry, buffer[..]) == Iteration(fp.data, layout, old(Loop(fp.pos, carried, buffer[..])))
  {
    hide SkipSection, Overwrite, ReadAt;
    var currentPosition := fp.pos;
    var left: int := CHUNK;
    carry := carried;
    ghost var loop := Loop(fp.pos, carried, buffer[..]);
    if carry > 0 {
      var skip := if carry % CHUNK == 0 then CHUNK else carry % CHUNK;
      left := left - skip;
      carry := carry - skip;
      fp.Seek(skip);
    }
    assert Step(Loop(fp.pos, carry, buffer[..]), left) == SkipCarried(loop);
    left, carry := PassSection(fp, layout.digest, currentPosition, buffer, left, carry);
    left, carry := PassSection(fp, layout.signature, currentPosition, buffer, left, carry);
    left, carry := PassSection(fp, layout.key, currentPosition, buffer, left, carry);
    if left > 0 {
      var bytes := fp.Read(left);
      CopyTo(buffer, CHUNK - left, bytes);
    }
  }

  /** The block of statements that the source repeats for each of the three sections. */
  method PassSection(fp: Stream, section: Section, currentPosition: nat, buffer: array<Byte>, left: int, carry: nat)
    returns (left': int, carry': nat)
    requires left <= CHUNK == buffer.Length
    modifies fp, buffer
    ensures Step(Loop(fp.pos, carry', buffer[..]), left')
            == SkipSection(fp.data, section, currentPosition, old(Step(Loop(fp.pos, carry, buffer[..]), left)))
    ensures left' <= CHUNK
  {
    left', carry' := left, carry;
    if section.offset != 0 && section.length != 0
       && section.offset - currentPosition > 0 && section.offset - currentPosition < CHUNK {
      var begin := (section.offset - currentPosition) % CHUNK;
      var bytes := fp.Read(begin);
      CopyTo(buffer, 0, bytes);
      left' := left' - begin;
      left' := left' - section.length;
      if left' < 0 {
        carry' := -left';
        left' := 0;
      }
      fp.Seek(CHUNK - left' - begin);
    }
  }
}
