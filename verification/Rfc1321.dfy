/** The message-digest algorithm of RFC 1321, stated as one function from a whole message to
    its digest. Nothing here knows about contexts, buffers or pieces: module Md5 proves that
    the streaming implementation computes this function. */
module Rfc1321 {

  // The wrappers keep the bits out of the solver's way wherever only the flow of bytes and
  // words matters.

  type Octet = v: int | 0 <= v < 256

  datatype Byte = Byte(value: Octet) {
    function Bits(): bv32 { (value as bv8) as bv32 }
  }

  /** A 32-bit quantity. */
  datatype Word = Word(bits: bv32)

  /** The four word buffer (A, B, C, D). */
  datatype Registers = Registers(a: Word, b: Word, c: Word, d: Word)

  // Section 2: word operations

  function Add(x: Word, y: Word): Word { Word(x.bits + y.bits) }

  function Rotate(x: Word, s: nat): Word
    requires 0 < s < 32
  {
    Combine(x, x, s)
  }

  function Combine(x: Word, y: Word, s: nat): Word
    requires 0 < s < 32
  {
    var shift := s as bv6;
    Word((x.bits << shift) | (y.bits >> (32 - shift)))
  }

  // Section 3.4: the auxiliary functions, one per round

  function F(x: Word, y: Word, z: Word): Word { Word((x.bits & y.bits) | (!x.bits & z.bits)) }

  function G(x: Word, y: Word, z: Word): Word { Word((x.bits & z.bits) | (y.bits & !z.bits)) }

  function H(x: Word, y: Word, z: Word): Word { Word(x.bits ^ y.bits ^ z.bits) }

  function I(x: Word, y: Word, z: Word): Word { Word(y.bits ^ (x.bits | !z.bits)) }

  function Mix(i: nat, x: Word, y: Word, z: Word): Word
    requires i < 64
  {
    if i < 16 then F(x, y, z) else if i < 32 then G(x, y, z) else if i < 48 then H(x, y, z) else I(x, y, z)
  }

  /** The list of the 64 steps: the message word k, the shift s and the table element T[i]. */
  datatype Row = Row(k: nat, s: nat, t: Word)

  function RowAt(i: nat): (row: Row)
    requires i < 64
    ensures row.k < 16 && 0 < row.s < 32
  {
    match i
    case 0 => Row(0, 7, Word(0xd76aa478))
    case 1 => Row(1, 12, Word(0xe8c7b756))
    case 2 => Row(2, 17, Word(0x242070db))
    case 3 => Row(3, 22, Word(0xc1bdceee))
    case 4 => Row(4, 7, Word(0xf57c0faf))
    case 5 => Row(5, 12, Word(0x4787c62a))
    case 6 => Row(6, 17, Word(0xa8304613))
    case 7 => Row(7, 22, Word(0xfd469501))
    case 8 => Row(8, 7, Word(0x698098d8))
    case 9 => Row(9, 12, Word(0x8b44f7af))
    case 10 => Row(10, 17, Word(0xffff5bb1))
    case 11 => Row(11, 22, Word(0x895cd7be))
    case 12 => Row(12, 7, Word(0x6b901122))
    case 13 => Row(13, 12, Word(0xfd987193))
    case 14 => Row(14, 17, Word(0xa679438e))
    case 15 => Row(15, 22, Word(0x49b40821))
    case 16 => Row(1, 5, Word(0xf61e2562))
    case 17 => Row(6, 9, Word(0xc040b340))
    case 18 => Row(11, 14, Word(0x265e5a51))
    case 19 => Row(0, 20, Word(0xe9b6c7aa))
    case 20 => Row(5, 5, Word(0xd62f105d))
    case 21 => Row(10, 9, Word(0x02441453))
    case 22 => Row(15, 14, Word(0xd8a1e681))
    case 23 => Row(4, 20, Word(0xe7d3fbc8))
    case 24 => Row(9, 5, Word(0x21e1cde6))
    case 25 => Row(14, 9, Word(0xc33707d6))
    case 26 => Row(3, 14, Word(0xf4d50d87))
    case 27 => Row(8, 20, Word(0x455a14ed))
    case 28 => Row(13, 5, Word(0xa9e3e905))
    case 29 => Row(2, 9, Word(0xfcefa3f8))
    case 30 => Row(7, 14, Word(0x676f02d9))
    case 31 => Row(12, 20, Word(0x8d2a4c8a))
    case 32 => Row(5, 4, Word(0xfffa3942))
    case 33 => Row(8, 11, Word(0x8771f681))
    case 34 => Row(11, 16, Word(0x6d9d6122))
    case 35 => Row(14, 23, Word(0xfde5380c))
    case 36 => Row(1, 4, Word(0xa4beea44))
    case 37 => Row(4, 11, Word(0x4bdecfa9))
    case 38 => Row(7, 16, Word(0xf6bb4b60))
    case 39 => Row(10, 23, Word(0xbebfbc70))
    case 40 => Row(13, 4, Word(0x289b7ec6))
    case 41 => Row(0, 11, Word(0xeaa127fa))
    case 42 => Row(3, 16, Word(0xd4ef3085))
    case 43 => Row(6, 23, Word(0x04881d05))
    case 44 => Row(9, 4, Word(0xd9d4d039))
    case 45 => Row(12, 11, Word(0xe6db99e5))
    case 46 => Row(15, 16, Word(0x1fa27cf8))
    case 47 => Row(2, 23, Word(0xc4ac5665))
    case 48 => Row(0, 6, Word(0xf4292244))
    case 49 => Row(7, 10, Word(0x432aff97))
    case 50 => Row(14, 15, Word(0xab9423a7))
    case 51 => Row(5, 21, Word(0xfc93a039))
    case 52 => Row(12, 6, Word(0x655b59c3))
    case 53 => Row(3, 10, Word(0x8f0ccc92))
    case 54 => Row(10, 15, Word(0xffeff47d))
    case 55 => Row(1, 21, Word(0x85845dd1))
    case 56 => Row(8, 6, Word(0x6fa87e4f))
    case 57 => Row(15, 10, Word(0xfe2ce6e0))
    case 58 => Row(6, 15, Word(0xa3014314))
    case 59 => Row(13, 21, Word(0x4e0811a1))
    case 60 => Row(4, 6, Word(0xf7537e82))
    case 61 => Row(11, 10, Word(0xbd3af235))
    case 62 => Row(2, 15, Word(0x2ad7d2bb))
    case _ => Row(9, 21, Word(0xeb86d391))
  }

  function Sum(a: Word, f: Word, x: Word, t: Word): Word { Word(a.bits + (f.bits + x.bits + t.bits)) }

  /** a = b + ((a + f + x + t) <<< s) */
  function Operation(f: Word, a: Word, b: Word, x: Word, t: Word, s: nat): Word
    requires 0 < s < 32
  {
    Add(b, Rotate(Sum(a, f, x, t), s))
  }

  /** One step on the registers named in the order the next step expects: the step list
      [ABCD], [DABC], [CDAB], [BCDA], ... is this rotation of the names. */
  function StepAt(i: nat, x: seq<Word>, r: Registers): Registers
    requires i < 64 && |x| == 16
  {
    var row := RowAt(i);
    Registers(r.d, Operation(Mix(i, r.b, r.c, r.d), r.a, r.b, x[row.k], row.t, row.s), r.b, r.c)
  }

  /** The first n of the 64 steps. */
  function Steps(n: nat, x: seq<Word>, r: Registers): Registers
    requires n <= 64 && |x| == 16
  {
    if n == 0 then r else StepAt(n - 1, x, Steps(n - 1, x, r))
  }

  /** Section 2: four bytes are a word with the low-order byte given first. */
  function WordOf(b0: Byte, b1: Byte, b2: Byte, b3: Byte): Word {
    Word(b0.Bits() | (b1.Bits() << 8) | (b2.Bits() << 16) | (b3.Bits() << 24))
  }

  function Decode(block: seq<Byte>): (x: seq<Word>)
    requires |block| == 64
    ensures |x| == 16
  {
    seq(16, k requires 0 <= k < 16 => WordOf(block[4 * k], block[4 * k + 1], block[4 * k + 2], block[4 * k + 3]))
  }

  /** Section 3.4 for one 16-word block. */
  function Compress(r: Registers, block: seq<Byte>): Registers
    requires |block| == 64
  {
    var q := Steps(64, Decode(block), r);
    Registers(Add(q.a, r.a), Add(q.b, r.b), Add(q.c, r.c), Add(q.d, r.d))
  }

  /** Section 3.4 for all the blocks of m. */
  function Chain(r: Registers, m: seq<Byte>): Registers
    requires |m| % 64 == 0
  {
    if m == [] then r else Compress(Chain(r, m[..|m| - 64]), m[|m| - 64..])
  }

  /** Section 3.3. */
  const INITIAL := Registers(Word(0x67452301), Word(0xefcdab89), Word(0x98badcfe), Word(0x10325476))

  function ByteOf(v: nat): Byte { Byte(v % 256) }

  /** The low-order count bytes of v, least significant first. */
  function LittleEndian(v: nat, count: nat): (s: seq<Byte>)
    ensures |s| == count
  {
    if count == 0 then [] else [ByteOf(v)] + LittleEndian(v / 256, count - 1)
  }

  function Zeros(n: nat): (s: seq<Byte>)
    ensures |s| == n
  {
    seq(n, _ => Byte(0))
  }

  /** Section 3.1: how many zero bytes follow the byte 0x80. */
  function ZeroCount(length: nat): (n: nat)
    ensures n < 64 && (length + 1 + n) % 64 == 56
  {
    (55 - length) % 64
  }

  lemma RoundToBlocks(length: nat)
    requires length % 64 == 56
    ensures (length + 8) % 64 == 0
  {
  }

  /** Sections 3.1 and 3.2: the message, the bit 1, zero bits, and the message length in bits
      as a 64-bit number, of which only the low-order 64 bits are used. */
  function Pad(m: seq<Byte>): (p: seq<Byte>)
    ensures |p| % 64 == 0
  {
    RoundToBlocks(|m| + 1 + ZeroCount(|m|));
    m + [Byte(0x80)] + Zeros(ZeroCount(|m|)) + LittleEndian(8 * |m|, 8)
  }

  function BytesOf(w: Word): seq<Byte> {
    [LowByte(w.bits), LowByte(w.bits >> 8), LowByte(w.bits >> 16), LowByte(w.bits >> 24)]
  }

  function LowByte(bits: bv32): Byte {
    Byte(((bits & 0xff) as bv8) as int)
  }

  /** Section 3.5. */
  function Output(r: Registers): (s: seq<Byte>)
    ensures |s| == 16
  {
    BytesOf(r.a) + BytesOf(r.b) + BytesOf(r.c) + BytesOf(r.d)
  }

  function Digest(m: seq<Byte>): (s: seq<Byte>)
    ensures |s| == 16
  {
    Output(Chain(INITIAL, Pad(m)))
  }

  // What the pieces above promise

  /** The padding is the shortest that leaves room for the length: fewer zero bytes never
      bring the length to 56 modulo 64. */
  lemma ZeroCountIsLeast(length: nat, fewer: nat)
    ensures (length + 1 + ZeroCount(length)) % 64 == 56
    ensures (length + 1 + fewer) % 64 == 56 ==> ZeroCount(length) <= fewer
  {
  }

  function ValueOf(s: seq<Byte>): nat {
    if s == [] then 0 else s[0].value + 256 * ValueOf(s[1..])
  }

  function Power256(n: nat): (p: nat)
    ensures p > 0
  {
    if n == 0 then 1 else 256 * Power256(n - 1)
  }

  lemma {:induction false} LittleEndianValue(v: nat, count: nat)
    requires v < Power256(count)
    ensures ValueOf(LittleEndian(v, count)) == v
  {
    if count > 0 {
      LittleEndianValue(v / 256, count - 1);
      assert LittleEndian(v, count)[1..] == LittleEndian(v / 256, count - 1);
    }
  }

  /** No two messages shorter than 2^61 bytes pad to the same blocks, so the padding loses
      nothing that the compression could have told apart. */
  lemma PadIsInjective(m: seq<Byte>, n: seq<Byte>)
    requires Pad(m) == Pad(n)
    requires |m| < 0x2000_0000_0000_0000 && |n| < 0x2000_0000_0000_0000
    ensures m == n
  {
    var p := Pad(m);
    assert p[|p| - 8..] == LittleEndian(8 * |m|, 8);
    assert p[|p| - 8..] == LittleEndian(8 * |n|, 8);
    assert Power256(8) == 0x1_0000_0000_0000_0000;
    LittleEndianValue(8 * |m|, 8);
    LittleEndianValue(8 * |n|, 8);
    assert p[..|m|] == m;
    assert p[..|n|] == n;
  }

  /** Blocks can be compressed in any grouping. */
  lemma {:induction false} ChainConcat(r: Registers, m: seq<Byte>, n: seq<Byte>)
    requires |m| % 64 == 0 && |n| % 64 == 0
    ensures Chain(r, m + n) == Chain(Chain(r, m), n)
  {
    if n == [] {
      assert m + n == m;
    } else {
      ChainConcat(r, m, n[..|n| - 64]);
      assert (m + n)[..|m + n| - 64] == m + n[..|n| - 64];
      assert (m + n)[|m + n| - 64..] == n[|n| - 64..];
    }
  }
}
