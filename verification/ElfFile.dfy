/** src/libappimage/utils/ElfFile.cpp: the size of an ELF file by its header and its last
    section header, read on a processor of either byte order. */
module ElfFile {
  import opened ByteSwap
  import opened Payload

  const EI_NIDENT := 16
  const EI_CLASS := 4
  const EI_DATA := 5
  const ELFCLASS32: bv8 := 1
  const ELFCLASS64: bv8 := 2

  function DataCode(order: Order): bv8 {
    if order.Little? then 1 else 2  // ELFDATA2LSB, ELFDATA2MSB
  }

  // Two's complement

  function Int32(x: int): int { (x + 0x8000_0000) % 0x1_0000_0000 - 0x8000_0000 }
  function Off(x: int): int { (x + 0x8000_0000_0000_0000) % 0x1_0000_0000_0000_0000 - 0x8000_0000_0000_0000 }

  function Max(a: int, b: int): int { if a > b then a else b }

  // The file

  function Slice(data: seq<bv8>, from: nat, count: nat): (bytes: seq<bv8>)
    ensures |bytes| <= count
    ensures |bytes| == count <==> count == 0 || from + count <= |data|
  {
    if from >= |data| then []
    else if from + count <= |data| then data[from..from + count]
    else data[from..]
  }

  class File {
    const data: seq<bv8>
    var pos: nat

    constructor (data: seq<bv8>)
      ensures this.data == data && pos == 0
    {
      this.data := data;
      pos := 0;
    }

    /** fseeko to an absolute offset; a negative one is an error that leaves the cursor. */
    method Seek(offset: int)
      modifies this
      ensures pos == if offset < 0 then old(pos) else offset
    {
      if offset >= 0 {
        pos := offset;
      }
    }

    /** fread: fewer bytes at the end of the file */
    method Read(count: nat) returns (bytes: seq<bv8>)
      modifies this
      ensures bytes == Slice(data, old(pos), count)
      ensures pos == old(pos) + |bytes|
    {
      bytes := Slice(data, pos, count);
      pos := pos + |bytes|;
    }
  }

  // The size as the numbers of the file give it

  datatype Fields = Fields(shoff: nat, shentsize: nat, shnum: nat)

  /** The bytes of some section headers, a product of two C ints. */
  function Headers(shentsize: nat, count: int): int { Int32(shentsize * count) }

  function LastHeaderOffset(h: Fields): int { Off(h.shoff + Headers(h.shentsize, h.shnum - 1)) }
  function TableEnd(h: Fields): int { Off(h.shoff + Headers(h.shentsize, h.shnum)) }

  /** Where the last section header is read: right after the ELF header when its offset is
      negative. */
  function LastHeaderAt(h: Fields, headerSize: nat): nat {
    if LastHeaderOffset(h) < 0 then headerSize else LastHeaderOffset(h)
  }

  function NumberAt(data: seq<bv8>, at: nat, width: nat, order: Order): nat
    requires at + width <= |data|
  {
    Number(data[at..at + width], order)
  }

  function Fields64(data: seq<bv8>, order: Order): Fields
    requires |data| >= 64
  {
    Fields(NumberAt(data, 40, 8, order), NumberAt(data, 58, 2, order), NumberAt(data, 60, 2, order))
  }

  function Fields32(data: seq<bv8>, order: Order): Fields
    requires |data| >= 52
  {
    Fields(NumberAt(data, 32, 4, order), NumberAt(data, 46, 2, order), NumberAt(data, 48, 2, order))
  }

  function Size64(data: seq<bv8>, order: Order): int {
    if |data| < 64 then -1
    else
      var h := Fields64(data, order);
      var at := LastHeaderAt(h, 64);
      if at + 64 > |data| then -1
      else Max(TableEnd(h), Off(NumberAt(data, at + 24, 8, order) + NumberAt(data, at + 32, 8, order)))
  }

  /** What the 64-bit conversion makes of a 32-bit number of the file. */
  function Widened(n: nat, order: Order, host: Order): nat {
    if order == host then n else n * 0x1_0000_0000
  }

  function Size32(data: seq<bv8>, order: Order, host: Order): int {
    if |data| < 52 then -1
    else
      var h := Fields32(data, order);
      var at := LastHeaderAt(h, 52);
      if at + 40 > |data| then -1
      else Max(TableEnd(h), Off(Widened(NumberAt(data, at + 16, 4, order), order, host)
                                + Widened(NumberAt(data, at + 20, 4, order), order, host)))
  }

  function OrderOf(code: bv8): Option<Order> {
    if code == DataCode(Little) then Some(Little) else if code == DataCode(Big) then Some(Big) else None
  }

  function SizeOf(data: seq<bv8>, host: Order): int {
    if |data| < EI_NIDENT then -1
    else match OrderOf(data[EI_DATA])
      case None => -1
      case Some(order) =>
        if data[EI_CLASS] == ELFCLASS32 then Size32(data, order, host)
        else if data[EI_CLASS] == ELFCLASS64 then Size64(data, order)
        else -1
  }

  // Conversion to the byte order of the processor

  function ToCpu16(v: bv16, code: bv8, host: Order): bv16 {
    if code != DataCode(host) then Bswap16(v) else v
  }

  function ToCpu32(v: bv32, code: bv8, host: Order): bv32 {
    if code != DataCode(host) then Bswap32(v) else v
  }

  function ToCpu64(v: bv64, code: bv8, host: Order): bv64 {
    if code != DataCode(host) then Bswap64(v) else v
  }

  lemma Converted16(data: seq<bv8>, at: nat, order: Order, host: Order)
    requires at + 2 <= |data|
    ensures Nat16(ToCpu16(Load16(data, at, host), DataCode(order), host)) == NumberAt(data, at, 2, order)
  {
    hide Bswap16, Load16, Number, Nat16;
    Load16Number(data, at, order);
    SwapOfLoad16(data, at, host);
  }

  lemma Converted32(data: seq<bv8>, at: nat, order: Order, host: Order)
    requires at + 4 <= |data|
    ensures Nat32(ToCpu32(Load32(data, at, host), DataCode(order), host)) == NumberAt(data, at, 4, order)
  {
    hide Bswap32, Load32, Number, Nat32;
    Load32Number(data, at, order);
    SwapOfLoad32(data, at, host);
  }

  /** Loading in host order and converting gives the number the file encodes. */
  lemma Converted64(data: seq<bv8>, at: nat, order: Order, host: Order)
    requires at + 8 <= |data|
    ensures Nat64(ToCpu64(Load64(data, at, host), DataCode(order), host)) == NumberAt(data, at, 8, order)
  {
    hide Bswap64, Load64, Number, Nat64;
    Load64Number(data, at, order);
    SwapOfLoad64(data, at, host);
  }

  /** A 32-bit field is shifted by the 64-bit conversion, when there is one to do. */
  lemma ConvertedWide(data: seq<bv8>, at: nat, order: Order, host: Order)
    requires at + 4 <= |data|
    ensures Nat64(ToCpu64(Load32(data, at, host) as bv64, DataCode(order), host))
         == Widened(NumberAt(data, at, 4, order), order, host)
  {
    hide Bswap32, Load32, Number, ToCpu64, Nat64, Nat32;
    var v := Load32(data, at, host);
    Load32Number(data, at, order);
    SwapOfLoad32(data, at, host);
    WideConversion(v, order, host);
    assert order != host ==> Bswap32(v) == Load32(data, at, order);
  }

  lemma WideConversion(v: bv32, order: Order, host: Order)
    ensures Nat64(ToCpu64(v as bv64, DataCode(order), host))
         == if order == host then Nat32(v) else Nat32(Bswap32(v)) * 0x1_0000_0000
  {
    hide Bswap64, Bswap32, Nat64, Nat32;
    if order == host {
      WideValue(v);
    } else {
      WideSwapShifts(v);
    }
  }

  lemma WideValue(v: bv32)
    ensures Nat64(v as bv64) == Nat32(v)
  {
  }

  lemma SameNumber(data: seq<bv8>, from: nat, count: nat, at: nat, width: nat, order: Order)
    requires from + count <= |data| && at + width <= count
    ensures NumberAt(data[from..from + count], at, width, order) == NumberAt(data, from + at, width, order)
  {
    Within(data, from, count, at, width);
  }

  lemma Within(data: seq<bv8>, from: nat, count: nat, at: nat, width: nat)
    requires from + count <= |data| && at + width <= count
    ensures data[from..from + count][at..at + width] == data[from + at..from + at + width]
  {
    var part := data[from..from + count][at..at + width];
    assert forall k :: 0 <= k < width ==> part[k] == data[from + at + k];
  }

  // The reader

  class ElfFile {
    const file: Option<seq<bv8>>  // None: cannot be opened
    const host: Order
    var e_ident: seq<bv8>
    var e_shoff: nat
    var e_shentsize: nat
    var e_shnum: nat

    ghost predicate Valid()
      reads this
    {
      |e_ident| == EI_NIDENT
    }

    ghost predicate Has(order: Order)
      reads this
    {
      Valid() && e_ident[EI_DATA] == DataCode(order)
    }

    constructor (file: Option<seq<bv8>>, host: Order)
      ensures Valid() && this.file == file && this.host == host
    {
      this.file := file;
      this.host := host;
      e_ident := seq(EI_NIDENT, _ => 0);
      e_shoff, e_shentsize, e_shnum := 0, 0, 0;
    }

    function File16ToCpu(v: bv16): bv16
      requires Valid()
      reads this
    {
      ToCpu16(v, e_ident[EI_DATA], host)
    }

    function File32ToCpu(v: bv32): bv32
      requires Valid()
      reads this
    {
      ToCpu32(v, e_ident[EI_DATA], host)
    }

    function File64ToCpu(v: bv64): bv64
      requires Valid()
      reads this
    {
      ToCpu64(v, e_ident[EI_DATA], host)
    }

    // Fields of a structure read from the file, converted

    function Half(bytes: seq<bv8>, at: nat): (v: nat)
      requires Valid() && at + 2 <= |bytes|
      reads this
      ensures forall order | Has(order) :: v == NumberAt(bytes, at, 2, order)
    {
      hide ToCpu16, Load16, NumberAt, Nat16;
      forall order | Has(order)
        ensures Nat16(ToCpu16(Load16(bytes, at, host), e_ident[EI_DATA], host))
             == NumberAt(bytes, at, 2, order)
      {
        Converted16(bytes, at, order, host);
      }
      Nat16(File16ToCpu(Load16(bytes, at, host)))
    }

    function Word(bytes: seq<bv8>, at: nat): (v: nat)
      requires Valid() && at + 4 <= |bytes|
      reads this
      ensures forall order | Has(order) :: v == NumberAt(bytes, at, 4, order)
    {
      hide ToCpu32, Load32, NumberAt, Nat32;
      forall order | Has(order)
        ensures Nat32(ToCpu32(Load32(bytes, at, host), e_ident[EI_DATA], host))
             == NumberAt(bytes, at, 4, order)
      {
        Converted32(bytes, at, order, host);
      }
      Nat32(File32ToCpu(Load32(bytes, at, host)))
    }

    function Xword(bytes: seq<bv8>, at: nat): (v: nat)
      requires Valid() && at + 8 <= |bytes|
      reads this
      ensures forall order | Has(order) :: v == NumberAt(bytes, at, 8, order)
    {
      hide ToCpu64, Load64, NumberAt, Nat64;
      forall order | Has(order)
        ensures Nat64(ToCpu64(Load64(bytes, at, host), e_ident[EI_DATA], host))
             == NumberAt(bytes, at, 8, order)
      {
        Converted64(bytes, at, order, host);
      }
      Nat64(File64ToCpu(Load64(bytes, at, host)))
    }

    /** A 32-bit field through the 64-bit conversion */
    function WidenedWord(bytes: seq<bv8>, at: nat): (v: nat)
      requires Valid() && at + 4 <= |bytes|
      reads this
      ensures forall order | Has(order) :: v == Widened(NumberAt(bytes, at, 4, order), order, host)
    {
      hide ToCpu64, Load32, NumberAt, Widened, Nat64;
      forall order | Has(order)
        ensures Nat64(ToCpu64(Load32(bytes, at, host) as bv64, e_ident[EI_DATA], host))
             == Widened(NumberAt(bytes, at, 4, order), order, host)
      {
        ConvertedWide(bytes, at, order, host);
      }
      Nat64(File64ToCpu(Load32(bytes, at, host) as bv64))
    }

    method ReadElf32(fd: File, ghost order: Order) returns (size: int)
      requires Has(order)
      modifies this, fd
      ensures e_ident == old(e_ident)
      ensures size == Size32(fd.data, order, host)
    {
      hide NumberAt, Off, Headers, Widened, Half, Word, Xword, WidenedWord;
      fd.Seek(0);
      var header := fd.Read(52);
      if |header| != 52 {
        return -1;
      }
      e_shoff := Word(header, 32);
      e_shentsize := Half(header, 46);
      e_shnum := Half(header, 48);
      ghost var h := Fields32(fd.data, order);
      assert Fields(e_shoff, e_shentsize, e_shnum) == h by {
        SameNumber(fd.data, 0, 52, 32, 4, order);
        SameNumber(fd.data, 0, 52, 46, 2, order);
        SameNumber(fd.data, 0, 52, 48, 2, order);
      }
      fd.Seek(Off(e_shoff + Headers(e_shentsize, e_shnum - 1)));
      ghost var at := fd.pos;
      var last := fd.Read(40);
      if |last| != 40 {
        return -1;
      }
      var tableEnd := Off(e_shoff + Headers(e_shentsize, e_shnum));
      var lastEnd := Off(WidenedWord(last, 16) + WidenedWord(last, 20));
      SameNumber(fd.data, at, 40, 16, 4, order);
      SameNumber(fd.data, at, 40, 20, 4, order);
      return if tableEnd > lastEnd then tableEnd else lastEnd;
    }

    method ReadElf64(fd: File, ghost order: Order) returns (size: int)
      requires Has(order)
      modifies this, fd
      ensures e_ident == old(e_ident)
      ensures size == Size64(fd.data, order)
    {
      hide NumberAt, Off, Headers, Widened, Half, Word, Xword, WidenedWord;
      fd.Seek(0);
      var header := fd.Read(64);
      if |header| != 64 {
        return -1;
      }
      e_shoff := Xword(header, 40);
      e_shentsize := Half(header, 58);
      e_shnum := Half(header, 60);
      ghost var h := Fields64(fd.data, order);
      assert Fields(e_shoff, e_shentsize, e_shnum) == h by {
        SameNumber(fd.data, 0, 64, 40, 8, order);
        SameNumber(fd.data, 0, 64, 58, 2, order);
        SameNumber(fd.data, 0, 64, 60, 2, order);
      }
      fd.Seek(Off(e_shoff + Headers(e_shentsize, e_shnum - 1)));
      ghost var at := fd.pos;
      var last := fd.Read(64);
      if |last| != 64 {
        return -1;
      }
      var tableEnd := Off(e_shoff + Headers(e_shentsize, e_shnum));
      var lastEnd := Off(Xword(last, 24) + Xword(last, 32));
      SameNumber(fd.data, at, 64, 24, 8, order);
      SameNumber(fd.data, at, 64, 32, 8, order);
      return if tableEnd > lastEnd then tableEnd else lastEnd;
    }

    /** The size depends on the file, and for 32-bit files on the processor, but not on what
        was read before. */
    method GetSize() returns (size: int)
      requires Valid()
      modifies this
      ensures Valid()
      ensures size == if file.Some? then SizeOf(file.value, host) else -1
    {
      hide Size32, Size64;
      if file.None? {
        return -1;
      }
      var fd := new File(file.value);
      var ident := fd.Read(EI_NIDENT);
      e_ident := ident + e_ident[|ident|..];
      if |ident| != EI_NIDENT {
        return -1;
      }
      assert e_ident[EI_DATA] == fd.data[EI_DATA] && e_ident[EI_CLASS] == fd.data[EI_CLASS];
      if e_ident[EI_DATA] != DataCode(Little) && e_ident[EI_DATA] != DataCode(Big) {
        return -1;
      }
      ghost var order := OrderOf(e_ident[EI_DATA]).value;
      if e_ident[EI_CLASS] == ELFCLASS32 {
        size := ReadElf32(fd, order);
      } else if e_ident[EI_CLASS] == ELFCLASS64 {
        size := ReadElf64(fd, order);
      } else {
        return -1;
      }
    }
  }

  // What the size means

  /** An ELF file by the fields that its size depends on. */
  datatype Layout = Layout(shoff: nat, shentsize: nat, shnum: nat, offset: nat, size: nat) {
    function TableEnd(): nat { shoff + shentsize * shnum }
    function LastSectionEnd(): nat { offset + size }

    /** The end of the file: that of the section header table or of the last section. */
    function FileSize(): int { Max(TableEnd(), LastSectionEnd()) }

    function LastHeader(): nat
      requires shnum > 0
    {
      shoff + shentsize * (shnum - 1)
    }

    /** At least one section, fields of their width, and sums that fit the C types. */
    ghost predicate InRange(width: nat) {
      && 0 < shnum < 0x1_0000 && shentsize < 0x1_0000
      && shoff < Limit(width) && offset < Limit(width) && size < Limit(width)
      && shentsize * shnum < 0x8000_0000
      && TableEnd() < 0x8000_0000_0000_0000 && LastSectionEnd() < 0x8000_0000_0000_0000
    }
  }

  ghost predicate EncodedAt(data: seq<bv8>, at: nat, v: nat, width: nat, order: Order) {
    at + width <= |data| && NumberAt(data, at, width, order) == v
  }

  ghost predicate IsIdent(data: seq<bv8>, class_: bv8, order: Order) {
    |data| >= EI_NIDENT && data[EI_CLASS] == class_ && data[EI_DATA] == DataCode(order)
  }

  /** The "ELF Header" and "Section Header" sections of chapter 4 of the System V ABI. */
  ghost predicate Encodes64(data: seq<bv8>, f: Layout, order: Order)
    requires f.shnum > 0
  {
    && IsIdent(data, ELFCLASS64, order) && |data| >= 64 && f.LastHeader() + 64 <= |data|
    && EncodedAt(data, 40, f.shoff, 8, order)
    && EncodedAt(data, 58, f.shentsize, 2, order) && EncodedAt(data, 60, f.shnum, 2, order)
    && EncodedAt(data, f.LastHeader() + 24, f.offset, 8, order)
    && EncodedAt(data, f.LastHeader() + 32, f.size, 8, order)
  }

  ghost predicate Encodes32(data: seq<bv8>, f: Layout, order: Order)
    requires f.shnum > 0
  {
    && IsIdent(data, ELFCLASS32, order) && |data| >= 52 && f.LastHeader() + 40 <= |data|
    && EncodedAt(data, 32, f.shoff, 4, order)
    && EncodedAt(data, 46, f.shentsize, 2, order) && EncodedAt(data, 48, f.shnum, 2, order)
    && EncodedAt(data, f.LastHeader() + 16, f.offset, 4, order)
    && EncodedAt(data, f.LastHeader() + 20, f.size, 4, order)
  }

  /** A file with these bytes written over it. */
  function Place(data: seq<bv8>, at: nat, bytes: seq<bv8>): (placed: seq<bv8>)
    requires at + |bytes| <= |data|
    ensures |placed| == |data|
    ensures forall i | 0 <= i < |data| && !(at <= i < at + |bytes|) :: placed[i] == data[i]
    ensures placed[at..at + |bytes|] == bytes
  {
    data[..at] + bytes + data[at + |bytes|..]
  }

  /** A field can be set to any number of its width without touching what is outside it. */
  lemma SetField(data: seq<bv8>, at: nat, v: nat, width: nat, order: Order) returns (placed: seq<bv8>)
    requires v < Limit(width) && at + width <= |data|
    ensures |placed| == |data| && EncodedAt(placed, at, v, width, order)
    ensures forall i | 0 <= i < |data| && !(at <= i < at + width) :: placed[i] == data[i]
  {
    hide Limit, Number;
    EncodingExists(v, width, order);
    var bytes :| IsEncoding(bytes, v, width, order);
    placed := Place(data, at, bytes);
  }

  /** A field keeps its number when other bytes change. */
  lemma FieldStays(data: seq<bv8>, placed: seq<bv8>, at: nat, v: nat, width: nat, order: Order)
    requires EncodedAt(data, at, v, width, order) && |placed| == |data|
    requires forall i | at <= i < at + width :: placed[i] == data[i]
    ensures EncodedAt(placed, at, v, width, order)
  {
    hide Number;
    assert placed[at..at + width] == data[at..at + width];
  }

  /** Every layout whose section headers do not overlap the ELF header has a file in either
      byte order. */
  lemma Encodable64(f: Layout, order: Order)
    requires f.InRange(8) && f.LastHeader() >= 64
    ensures exists data :: Encodes64(data, f, order)
  {
    hide EncodedAt, Limit;
    Limits();
    var at := f.LastHeader();
    var ident := seq(at + 64, i => if i == EI_CLASS then ELFCLASS64 else if i == EI_DATA then DataCode(order) else 0);
    var a := SetField(ident, 40, f.shoff, 8, order);
    var b := SetField(a, 58, f.shentsize, 2, order);
    FieldStays(a, b, 40, f.shoff, 8, order);
    var c := SetField(b, 60, f.shnum, 2, order);
    FieldStays(b, c, 40, f.shoff, 8, order);
    FieldStays(b, c, 58, f.shentsize, 2, order);
    var d := SetField(c, at + 24, f.offset, 8, order);
    FieldStays(c, d, 40, f.shoff, 8, order);
    FieldStays(c, d, 58, f.shentsize, 2, order);
    FieldStays(c, d, 60, f.shnum, 2, order);
    var e := SetField(d, at + 32, f.size, 8, order);
    FieldStays(d, e, 40, f.shoff, 8, order);
    FieldStays(d, e, 58, f.shentsize, 2, order);
    FieldStays(d, e, 60, f.shnum, 2, order);
    FieldStays(d, e, at + 24, f.offset, 8, order);
    assert Encodes64(e, f, order);
  }

  /** The same for 32-bit files. */
  lemma Encodable32(f: Layout, order: Order)
    requires f.InRange(4) && f.LastHeader() >= 52
    ensures exists data :: Encodes32(data, f, order)
  {
    hide EncodedAt, Limit;
    Limits();
    var at := f.LastHeader();
    var ident := seq(at + 40, i => if i == EI_CLASS then ELFCLASS32 else if i == EI_DATA then DataCode(order) else 0);
    var a := SetField(ident, 32, f.shoff, 4, order);
    var b := SetField(a, 46, f.shentsize, 2, order);
    FieldStays(a, b, 32, f.shoff, 4, order);
    var c := SetField(b, 48, f.shnum, 2, order);
    FieldStays(b, c, 32, f.shoff, 4, order);
    FieldStays(b, c, 46, f.shentsize, 2, order);
    var d := SetField(c, at + 16, f.offset, 4, order);
    FieldStays(c, d, 32, f.shoff, 4, order);
    FieldStays(c, d, 46, f.shentsize, 2, order);
    FieldStays(c, d, 48, f.shnum, 2, order);
    var e := SetField(d, at + 20, f.size, 4, order);
    FieldStays(d, e, 32, f.shoff, 4, order);
    FieldStays(d, e, 46, f.shentsize, 2, order);
    FieldStays(d, e, 48, f.shnum, 2, order);
    FieldStays(d, e, at + 16, f.offset, 4, order);
    assert Encodes32(e, f, order);
  }

  lemma Offsets(f: Layout, width: nat)
    requires f.InRange(width)
    ensures var h := Fields(f.shoff, f.shentsize, f.shnum);
            TableEnd(h) == f.TableEnd() && LastHeaderOffset(h) == f.LastHeader() >= 0
    ensures Off(f.LastSectionEnd()) == f.LastSectionEnd()
  {
    hide Off, Headers;
    SmallerProduct(f.shentsize, f.shnum);
    HeadersInWidth(f.shentsize, f.shnum - 1);
    HeadersInWidth(f.shentsize, f.shnum);
    OffInWidth(f.shoff + f.shentsize * (f.shnum - 1));
    OffInWidth(f.TableEnd());
    OffInWidth(f.LastSectionEnd());
  }

  lemma SmallerProduct(a: nat, b: nat)
    requires b > 0
    ensures 0 <= a * (b - 1) <= a * b
  {
  }

  lemma HeadersInWidth(shentsize: nat, count: nat)
    requires 0 <= shentsize * count < 0x8000_0000
    ensures Headers(shentsize, count) == shentsize * count
  {
  }

  lemma OffInWidth(x: nat)
    requires x < 0x8000_0000_0000_0000
    ensures Off(x) == x
  {
  }

  /** In either byte order, on either processor, the size of a 64-bit file is its end. */
  lemma SizeOf64(data: seq<bv8>, f: Layout, order: Order, host: Order)
    requires f.InRange(8) && Encodes64(data, f, order)
    ensures SizeOf(data, host) == f.FileSize()
  {
    hide NumberAt, Limit, Off, Headers;
    Offsets(f, 8);
    Limits();
  }

  /** So it is the same for a file and its encoding in the other byte order. */
  lemma SizeIsIndependentOfByteOrder(a: seq<bv8>, b: seq<bv8>, f: Layout, host: Order, otherHost: Order)
    requires f.InRange(8) && Encodes64(a, f, Little) && Encodes64(b, f, Big)
    ensures SizeOf(a, host) == SizeOf(b, otherHost) == f.FileSize()
  {
    hide SizeOf;
    SizeOf64(a, f, Little, host);
    SizeOf64(b, f, Big, otherHost);
  }

  lemma SizeOf32(data: seq<bv8>, f: Layout, order: Order, host: Order)
    requires f.InRange(4) && Encodes32(data, f, order)
    ensures SizeOf(data, host) == Max(f.TableEnd(), Off(Widened(f.offset, order, host) + Widened(f.size, order, host)))
  {
    hide NumberAt, Limit, Off, Headers, Widened;
    Offsets(f, 4);
    Limits();
  }

  /** When the wrapped sum of the shifted section fields stays out of the way. */
  predicate ShiftIsHarmless(f: Layout) {
    var end := f.LastSectionEnd();
    end <= f.TableEnd()
    && (end % 0x1_0000_0000 >= 0x8000_0000 || (end % 0x1_0000_0000) * 0x1_0000_0000 <= f.TableEnd())
  }

  /** The size of a 32-bit file is its end in host byte order; in the other one it is that
      only for files whose last section ends before the table and whose shifted end wraps
      to something small. */
  lemma SizeOf32Exactly(data: seq<bv8>, f: Layout, order: Order, host: Order)
    requires f.InRange(4) && Encodes32(data, f, order)
    ensures SizeOf(data, host) == f.FileSize() <==> order == host || ShiftIsHarmless(f)
  {
    hide SizeOf, Encodes32, Off, Widened, Limit, ShiftIsHarmless;
    SizeOf32(data, f, order, host);
    Offsets(f, 4);
    WidenedSum(f.offset, f.size, order, host);
    if order != host {
      ShiftExactly(f);
    }
  }

  lemma WidenedSum(a: nat, b: nat, order: Order, host: Order)
    ensures Widened(a, order, host) + Widened(b, order, host) == if order == host then a + b else (a + b) * 0x1_0000_0000
  {
  }

  lemma ShiftExactly(f: Layout)
    ensures Max(f.TableEnd(), Off(f.LastSectionEnd() * 0x1_0000_0000)) == f.FileSize() <==> ShiftIsHarmless(f)
  {
    hide Off;
    ShiftedEnd(f.LastSectionEnd());
  }

  lemma ShiftedEnd(end: nat)
    ensures var k := end % 0x1_0000_0000;
            Off(end * 0x1_0000_0000) == (if k < 0x8000_0000 then k else k - 0x1_0000_0000) * 0x1_0000_0000
  {
    var q, k := end / 0x1_0000_0000, end % 0x1_0000_0000;
    assert end * 0x1_0000_0000 == q * 0x1_0000_0000_0000_0000 + k * 0x1_0000_0000;
    OffOfMultiple(q, k * 0x1_0000_0000);
  }

  lemma OffOfMultiple(q: int, x: int)
    ensures Off(q * 0x1_0000_0000_0000_0000 + x) == Off(x)
  {
  }

  /** Below 2 GiB it is wrong whenever the last section does not end at 0. */
  lemma ForeignSize32(data: seq<bv8>, f: Layout, order: Order)
    requires f.InRange(4) && Encodes32(data, f, order)
    requires f.TableEnd() < 0x1_0000_0000 && 0 < f.LastSectionEnd() < 0x8000_0000
    ensures SizeOf(data, Other(order)) == f.LastSectionEnd() * 0x1_0000_0000 > f.FileSize()
  {
    hide SizeOf, Encodes32, Off;
    SizeOf32(data, f, order, Other(order));
    ShiftedEnd(f.LastSectionEnd());
  }

  // Files written out

  function Nuls(n: nat): (bytes: seq<bv8>)
    ensures |bytes| == n
  {
    seq(n, _ => 0)
  }

  /** An ELF header and one section header behind it, with these bytes in the fields that count. */
  function File64(data: bv8, shoff: seq<bv8>, shentsize: seq<bv8>, shnum: seq<bv8>, offset: seq<bv8>, size: seq<bv8>): seq<bv8> {
    [0x7f, 0x45, 0x4c, 0x46, 2, data] + Nuls(34) + shoff + Nuls(10) + shentsize + shnum + Nuls(2) + Nuls(24) + offset + size + Nuls(24)
  }

  function File32(data: bv8, shoff: seq<bv8>, shentsize: seq<bv8>, shnum: seq<bv8>, offset: seq<bv8>, size: seq<bv8>): seq<bv8> {
    [0x7f, 0x45, 0x4c, 0x46, 1, data] + Nuls(26) + shoff + Nuls(10) + shentsize + shnum + Nuls(2) + Nuls(16) + offset + size + Nuls(16)
  }

  lemma Fields64Are(data: bv8, shoff: seq<bv8>, shentsize: seq<bv8>, shnum: seq<bv8>, offset: seq<bv8>, size: seq<bv8>)
    requires |shoff| == |offset| == |size| == 8 && |shentsize| == |shnum| == 2
    ensures var f := File64(data, shoff, shentsize, shnum, offset, size);
            && |f| == 128 && f[4] == 2 && f[5] == data
            && f[40..48] == shoff && f[58..60] == shentsize && f[60..62] == shnum && f[88..96] == offset && f[96..104] == size
  {
  }

  lemma Fields32Are(data: bv8, shoff: seq<bv8>, shentsize: seq<bv8>, shnum: seq<bv8>, offset: seq<bv8>, size: seq<bv8>)
    requires |shoff| == |offset| == |size| == 4 && |shentsize| == |shnum| == 2
    ensures var f := File32(data, shoff, shentsize, shnum, offset, size);
            && |f| == 92 && f[4] == 1 && f[5] == data
            && f[32..36] == shoff && f[46..48] == shentsize && f[48..50] == shnum && f[68..72] == offset && f[72..76] == size
  {
  }

  lemma {:induction false} SmallNumber(v: bv8, n: nat)
    ensures Number([v] + Nuls(n), Little) == Nat8(v) && Number(Nuls(n) + [v], Big) == Nat8(v)
    ensures Number(Nuls(n), Little) == 0 && Number(Nuls(n), Big) == 0
  {
    hide Nat8;
    ZeroIsNothing();
    if n > 0 {
      SmallNumber(v, n - 1);
      assert Nuls(n)[1..] == Nuls(n - 1) && Nuls(n)[..n - 1] == Nuls(n - 1);
    }
    assert ([v] + Nuls(n))[1..] == Nuls(n) && (Nuls(n) + [v])[..n] == Nuls(n);
  }

  lemma ZeroIsNothing()
    ensures Nat8(0) == 0
  {
  }

  lemma Values()
    ensures Nat8(1) == 1 && Nat8(52) == 52 && Nat8(40) == 40 && Nat8(64) == 64 && Nat8(80) == 80 && Nat8(30) == 30
    ensures Nat8(100) == 100 && Nat8(50) == 50
  {
  }

  /** With a section table at 64 and a last section of 50 bytes at 100, byte 5 being 1 for
      little-endian and 2 for big-endian, the size is 150 on every processor. */
  lemma Size64Example(host: Order)
    ensures SizeOf(File64(1, [64] + Nuls(7), [64] + Nuls(1), [1] + Nuls(1), [100] + Nuls(7), [50] + Nuls(7)), host) == 150
    ensures SizeOf(File64(2, Nuls(7) + [64], Nuls(1) + [64], Nuls(1) + [1], Nuls(7) + [100], Nuls(7) + [50]), host) == 150
  {
    hide File64, Nuls, Number, Nat8, SizeOf, Limit;
    var f := Layout(64, 64, 1, 100, 50);
    Limits();
    var little := File64(1, [64] + Nuls(7), [64] + Nuls(1), [1] + Nuls(1), [100] + Nuls(7), [50] + Nuls(7));
    LittleExample64();
    SizeOf64(little, f, Little, host);
    var big := File64(2, Nuls(7) + [64], Nuls(1) + [64], Nuls(1) + [1], Nuls(7) + [100], Nuls(7) + [50]);
    BigExample64();
    SizeOf64(big, f, Big, host);
  }

  lemma LittleExample64()
    ensures Encodes64(File64(1, [64] + Nuls(7), [64] + Nuls(1), [1] + Nuls(1), [100] + Nuls(7), [50] + Nuls(7)),
                      Layout(64, 64, 1, 100, 50), Little)
  {
    hide File64, Nuls, Number, Nat8;
    Values();
    SmallNumber(64, 7);
    SmallNumber(64, 1);
    SmallNumber(1, 1);
    SmallNumber(100, 7);
    SmallNumber(50, 7);
    Fields64Are(1, [64] + Nuls(7), [64] + Nuls(1), [1] + Nuls(1), [100] + Nuls(7), [50] + Nuls(7));
  }

  lemma BigExample64()
    ensures Encodes64(File64(2, Nuls(7) + [64], Nuls(1) + [64], Nuls(1) + [1], Nuls(7) + [100], Nuls(7) + [50]),
                      Layout(64, 64, 1, 100, 50), Big)
  {
    hide File64, Nuls, Number, Nat8;
    Values();
    SmallNumber(64, 7);
    SmallNumber(64, 1);
    SmallNumber(1, 1);
    SmallNumber(100, 7);
    SmallNumber(50, 7);
    Fields64Are(2, Nuls(7) + [64], Nuls(1) + [64], Nuls(1) + [1], Nuls(7) + [100], Nuls(7) + [50]);
  }

  /** The same for 32-bit files, on a processor of their own byte order. */
  lemma Size32Example()
    ensures SizeOf(File32(1, [52] + Nuls(3), [40] + Nuls(1), [1] + Nuls(1), [80] + Nuls(3), [30] + Nuls(3)), Little) == 110
    ensures SizeOf(File32(2, Nuls(3) + [52], Nuls(1) + [40], Nuls(1) + [1], Nuls(3) + [80], Nuls(3) + [30]), Big) == 110
  {
    hide File32, Nuls, Number, Nat8, SizeOf, Limit;
    var f := Layout(52, 40, 1, 80, 30);
    Limits();
    LittleExample32();
    SizeOf32Exactly(File32(1, [52] + Nuls(3), [40] + Nuls(1), [1] + Nuls(1), [80] + Nuls(3), [30] + Nuls(3)), f, Little, Little);
    BigExample32();
    SizeOf32Exactly(File32(2, Nuls(3) + [52], Nuls(1) + [40], Nuls(1) + [1], Nuls(3) + [80], Nuls(3) + [30]), f, Big, Big);
  }

  lemma LittleExample32()
    ensures Encodes32(File32(1, [52] + Nuls(3), [40] + Nuls(1), [1] + Nuls(1), [80] + Nuls(3), [30] + Nuls(3)),
                      Layout(52, 40, 1, 80, 30), Little)
  {
    hide File32, Nuls, Number, Nat8;
    Values();
    SmallNumber(52, 3);
    SmallNumber(40, 1);
    SmallNumber(1, 1);
    SmallNumber(80, 3);
    SmallNumber(30, 3);
    Fields32Are(1, [52] + Nuls(3), [40] + Nuls(1), [1] + Nuls(1), [80] + Nuls(3), [30] + Nuls(3));
  }

  lemma BigExample32()
    ensures Encodes32(File32(2, Nuls(3) + [52], Nuls(1) + [40], Nuls(1) + [1], Nuls(3) + [80], Nuls(3) + [30]),
                      Layout(52, 40, 1, 80, 30), Big)
  {
    hide File32, Nuls, Number, Nat8;
    Values();
    SmallNumber(52, 3);
    SmallNumber(40, 1);
    SmallNumber(1, 1);
    SmallNumber(80, 3);
    SmallNumber(30, 3);
    Fields32Are(2, Nuls(3) + [52], Nuls(1) + [40], Nuls(1) + [1], Nuls(3) + [80], Nuls(3) + [30]);
  }

  /** What is no ELF file of a known kind, or ends too early, has no size. */
  lemma NoSize(data: seq<bv8>, host: Order)
    ensures |data| < 16 ==> SizeOf(data, host) == -1
    ensures |data| >= 16 && data[5] != 1 && data[5] != 2 ==> SizeOf(data, host) == -1
    ensures |data| >= 16 && data[4] != 1 && data[4] != 2 ==> SizeOf(data, host) == -1
    ensures 16 <= |data| < 64 && data[4] == 2 ==> SizeOf(data, host) == -1
    ensures 16 <= |data| < 52 && data[4] == 1 ==> SizeOf(data, host) == -1
  {
  }
}
