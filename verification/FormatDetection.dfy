/** src/libappimage/utils/MagicBytesChecker.cpp and AppImage::Private::getFormat: signature
    checks that share one input stream, on which a failure sticks. */
module FormatDetection {
  import opened Rfc1321
  import opened Payload

  datatype Format = TYPE_1 | TYPE_2 | INVALID

  // The answer, as a property of the bytes of the file

  predicate HasAt(data: seq<Octet>, signature: seq<Octet>, offset: nat) {
    offset + |signature| <= |data| && data[offset..offset + |signature|] == signature
  }

  const ELF: seq<Octet> := [0x7f, 0x45, 0x4c, 0x46]
  const AI_1: seq<Octet> := [0x41, 0x49, 0x01]
  const AI_2: seq<Octet> := [0x41, 0x49, 0x02]
  const CD001: seq<Octet> := [0x43, 0x44, 0x30, 0x30, 0x31]
  const ISO_POSITIONS: seq<nat> := [32769, 34817, 36865]

  predicate HasIso9660(data: seq<Octet>) {
    exists i :: 0 <= i < 3 && HasAt(data, CD001, ISO_POSITIONS[i])
  }

  function FormatOf(data: seq<Octet>): Format {
    if !HasAt(data, ELF, 0) then INVALID
    else if HasAt(data, AI_1, 8) then TYPE_1
    else if HasAt(data, AI_2, 8) then TYPE_2
    else if HasIso9660(data) then TYPE_1
    else INVALID
  }

  // MagicBytesChecker

  /** The file ends inside the signature, and agrees with it up to there. */
  predicate RunsPast(data: seq<Octet>, signature: seq<Octet>, offset: nat) {
    |data| < offset + |signature|
    && (offset < |data| ==> data[offset..] <= signature)
  }

  /** A check that ran past the end of the file rules out every check that ends later. */
  lemma PastTheEnd(data: seq<Octet>, signature: seq<Octet>, offset: nat, later: seq<Octet>, laterOffset: nat)
    requires RunsPast(data, signature, offset)
    requires offset + |signature| <= laterOffset + |later|
    ensures !HasAt(data, later, laterOffset)
  {
  }

  class MagicBytesChecker {
    const data: seq<Octet>
    var pos: nat
    var failed: bool  // failbit of the stream, never cleared

    /** A file that cannot be opened starts out failed. */
    constructor (file: Option<seq<Octet>>)
      ensures pos == 0 && failed == file.None?
      ensures data == if file.Some? then file.value else []
    {
      data := if file.Some? then file.value else [];
      pos := 0;
      failed := file.None?;
    }

    method Seek(offset: nat)
      modifies this`pos
      ensures pos == if failed then old(pos) else offset
    {
      if !failed {
        pos := offset;
      }
    }

    /** istream::get: -1 at the end of the file, and from then on */
    method Get() returns (c: int)
      modifies this
      ensures if old(failed) || old(pos) >= |data| then c == -1 && failed
              else c == data[old(pos)] && !failed && pos == old(pos) + 1
    {
      if failed || pos >= |data| {
        failed := true;
        return -1;
      }
      c := data[pos];
      pos := pos + 1;
    }

    method HasSignatureAt(signature: seq<Octet>, offset: nat) returns (found: bool)
      requires signature != []
      modifies this
      ensures found <==> !old(failed) && HasAt(data, signature, offset)
      ensures failed <==> old(failed) || RunsPast(data, signature, offset)
    {
      Seek(offset);
      var i := 0;
      while i < |signature| && !failed
        invariant 0 <= i <= |signature|
        invariant failed == old(failed)
        invariant !failed ==> pos == offset + i && (i > 0 ==> pos <= |data| && data[offset..pos] == signature[..i])
      {
        var c := Get();
        if signature[i] != c {
          return false;
        }
        assert signature[..i + 1] == signature[..i] + [c];
        assert data[offset..pos] == (if i == 0 then [] else data[offset..pos - 1]) + [c];
        i := i + 1;
      }
      return !failed;
    }

    method HasIso9660Signature() returns (found: bool)
      modifies this
      ensures found <==> !old(failed) && HasIso9660(data)
    {
      if failed {
        return false;
      }
      var i := 0;
      while i < 3
        invariant 0 <= i <= 3
        invariant forall j :: 0 <= j < i ==> !HasAt(data, CD001, ISO_POSITIONS[j])
        invariant failed ==> forall j :: i <= j < 3 ==> !HasAt(data, CD001, ISO_POSITIONS[j])
      {
        found := HasSignatureAt(CD001, ISO_POSITIONS[i]);
        if found {
          return true;
        }
        i := i + 1;
      }
      return false;
    }

    method HasElfSignature() returns (found: bool)
      modifies this
      ensures found <==> !old(failed) && HasAt(data, ELF, 0)
      ensures failed <==> old(failed) || RunsPast(data, ELF, 0)
    {
      if failed {
        return false;
      }
      found := HasSignatureAt(ELF, 0);
    }

    method HasAppImageType1Signature() returns (found: bool)
      modifies this
      ensures found <==> !old(failed) && HasAt(data, AI_1, 8)
      ensures failed <==> old(failed) || RunsPast(data, AI_1, 8)
    {
      if failed {
        return false;
      }
      found := HasSignatureAt(AI_1, 8);
    }

    method HasAppImageType2Signature() returns (found: bool)
      modifies this
      ensures found <==> !old(failed) && HasAt(data, AI_2, 8)
      ensures failed <==> old(failed) || RunsPast(data, AI_2, 8)
    {
      if failed {
        return false;
      }
      found := HasSignatureAt(AI_2, 8);
    }
  }

  /** For every length and content the shared stream gives the answer of the bytes alone. */
  method GetFormat(file: Option<seq<Octet>>) returns (format: Format)
    ensures format == if file.Some? then FormatOf(file.value) else INVALID
  {
    var checker := new MagicBytesChecker(file);
    var elf := checker.HasElfSignature();
    if !elf {
      return INVALID;
    }
    var type1 := checker.HasAppImageType1Signature();
    if type1 {
      return TYPE_1;
    }
    var type2 := checker.HasAppImageType2Signature();
    if type2 {
      return TYPE_2;
    }
    var iso := checker.HasIso9660Signature();
    if iso {
      return TYPE_1;
    }
    return INVALID;
  }

  // The formats, byte by byte

  predicate Starts(data: seq<Octet>) {
    |data| >= 4 && data[0] == 0x7f && data[1] == 'E' as int && data[2] == 'L' as int && data[3] == 'F' as int
  }

  predicate Magic(data: seq<Octet>, version: Octet) {
    |data| >= 11 && data[8] == 'A' as int && data[9] == 'I' as int && data[10] == version
  }

  predicate Iso(data: seq<Octet>, at: nat) {
    && |data| >= at + 5 && data[at] == 'C' as int && data[at + 1] == 'D' as int
    && data[at + 2] == '0' as int && data[at + 3] == '0' as int && data[at + 4] == '1' as int
  }

  /** Type 1 by its magic bytes or, with those of neither type, by an ISO 9660 signature at one of
      three places; type 2 by its magic bytes; and both only in ELF files. */
  lemma FormatsAre(data: seq<Octet>)
    ensures FormatOf(data) == TYPE_1
            <==> Starts(data) && (Magic(data, 1) || (!Magic(data, 2) && (Iso(data, 32769) || Iso(data, 34817) || Iso(data, 36865))))
    ensures FormatOf(data) == TYPE_2 <==> Starts(data) && Magic(data, 2)
  {
    FourBytes(data);
    ThreeBytes(data);
    FiveBytes(data, 32769);
    FiveBytes(data, 34817);
    FiveBytes(data, 36865);
    IsoPlaces(data);
  }

  lemma IsoPlaces(data: seq<Octet>)
    ensures HasIso9660(data) <==> HasAt(data, CD001, 32769) || HasAt(data, CD001, 34817) || HasAt(data, CD001, 36865)
  {
    hide HasAt;
    assert ISO_POSITIONS[0] == 32769 && ISO_POSITIONS[1] == 34817 && ISO_POSITIONS[2] == 36865;
  }

  lemma FourBytes(data: seq<Octet>)
    ensures HasAt(data, ELF, 0) <==> Starts(data)
  {
    if Starts(data) {
      assert data[0..4] == [data[0], data[1], data[2], data[3]];
    }
  }

  lemma ThreeBytes(data: seq<Octet>)
    ensures HasAt(data, AI_1, 8) <==> Magic(data, 1)
    ensures HasAt(data, AI_2, 8) <==> Magic(data, 2)
  {
    if |data| >= 11 {
      assert data[8..11] == [data[8], data[9], data[10]];
    }
  }

  lemma FiveBytes(data: seq<Octet>, at: nat)
    ensures HasAt(data, CD001, at) <==> Iso(data, at)
  {
    if |data| >= at + 5 {
      assert data[at..at + 5] == [data[at], data[at + 1], data[at + 2], data[at + 3], data[at + 4]];
    }
  }
}
