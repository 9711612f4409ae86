/** The streaming MD5 of src/libappimage_hashlib/md5.c: a context that is fed a message in
    pieces, proved to compute the one-shot digest of module Rfc1321. */
module Md5 {
  import Rfc = Rfc1321
  import opened Rfc1321

  // The macros: F and G are rewritten without AND-NOT, H and I are the standard's own

  function FastF(x: Word, y: Word, z: Word): (r: Word)
    ensures r == F(x, y, z)
  {
    Word(z.bits ^ (x.bits & (y.bits ^ z.bits)))
  }

  function FastG(x: Word, y: Word, z: Word): (r: Word)
    ensures r == G(x, y, z)
  {
    Word(y.bits ^ (z.bits & (x.bits ^ y.bits)))
  }

  /** (a & 0xffffffff): no change on a 32-bit type */
  function Masked(x: Word): (r: Word)
    ensures r == x
  {
    Word(x.bits & 0xffffffff)
  }

  lemma AddCommutes(x: Word, y: Word)
    ensures Add(x, y) == Add(y, x)
  {
  }

  function Step(f: Word, a: Word, b: Word, x: Word, t: Word, s: nat): (r: Word)
    requires 0 < s < 32
    ensures r == Operation(f, a, b, x, t, s)
  {
    hide Add, Sum, Rotate, Masked;
    var sum := Sum(a, f, x, t);
    var rotated := Combine(sum, Masked(sum), s);
    AddCommutes(rotated, b);
    Add(rotated, b)
  }

  lemma Unroll(i: nat, x: seq<Word>, r0: Registers, r: Registers)
    requires i <= 60 && |x| == 16
    requires r == Steps(i, x, r0)
    ensures Steps(i + 4, x, r0) == StepAt(i + 3, x, StepAt(i + 2, x, StepAt(i + 1, x, StepAt(i, x, r))))
  {
    hide StepAt;
    assert Steps(i + 1, x, r0) == StepAt(i, x, r);
    assert Steps(i + 2, x, r0) == StepAt(i + 1, x, Steps(i + 1, x, r0));
    assert Steps(i + 3, x, r0) == StepAt(i + 2, x, Steps(i + 2, x, r0));
  }

  lemma ChainStep(r: Registers, m: seq<Byte>, block: seq<Byte>)
    requires |m| % 64 == 0 && |block| == 64
    ensures Chain(r, m + block) == Compress(Chain(r, m), block)
  {
    hide Compress;
    assert (m + block)[..|m + block| - 64] == m;
    assert (m + block)[|m + block| - 64..] == block;
  }

  /** r is the state after the first done bytes of m, which are whole blocks. */
  ghost predicate Absorbed(r: Registers, m: seq<Byte>, done: nat) {
    done <= |m| && done % 64 == 0 && r == Chain(INITIAL, m[..done])
  }

  lemma AbsorbBlocks(r: Registers, m: seq<Byte>, done: nat, blocks: seq<Byte>)
    requires Absorbed(r, m, done)
    requires |blocks| % 64 == 0 && blocks <= m[done..]
    ensures Absorbed(Chain(r, blocks), m, done + |blocks|)
  {
    hide Compress, Chain;
    WholeSum(done, |blocks|);
    PrefixGrows(m, done, blocks);
    ChainConcat(INITIAL, m[..done], blocks);
  }

  lemma WholeSum(a: nat, b: nat)
    requires a % 64 == 0 && b % 64 == 0
    ensures (a + b) % 64 == 0
  {
  }

  lemma PrefixGrows(m: seq<Byte>, done: nat, blocks: seq<Byte>)
    requires done <= |m| && blocks <= m[done..]
    ensures done + |blocks| <= |m| && m[..done + |blocks|] == m[..done] + blocks
  {
  }

  lemma NothingChained(r: Registers)
    ensures Chain(r, []) == r
  {
  }

  /** BufferSize & ~0x3f */
  function WholeBlocks(size: nat): (n: nat)
    ensures n <= size < n + 64 && n % 64 == 0
  {
    size - size % 64
  }

  lemma AbsorbedIsWhole(r: Registers, m: seq<Byte>, done: nat)
    requires Absorbed(r, m, done)
    ensures done <= |m| && (|m| < done + 64 ==> done == |m| - |m| % 64)
    ensures done == |m| ==> r == Chain(INITIAL, m)
  {
    hide Chain;
    if done == |m| {
      assert m[..done] == m;
    }
  }

  lemma AbsorbedGrows(r: Registers, m: seq<Byte>, n: seq<Byte>, done: nat)
    requires Absorbed(r, m, done)
    ensures done <= |m| && Absorbed(r, m + n, done)
    ensures (m + n)[done..] == m[done..] + n
  {
    hide Chain;
    assert (m + n)[..done] == m[..done];
  }

  /** Filling up the buffer takes the front of the new data. */
  lemma FillBlock(m: seq<Byte>, tail: seq<Byte>, data: seq<Byte>, done: nat)
    requires done <= |m| && m[done..] == tail + data
    requires |tail| < 64 <= |tail| + |data|
    ensures var free := 64 - |tail|;
            tail + data[..free] <= m[done..] && m[done + 64..] == data[free..]
  {
  }

  // The byte count is kept in two counters: lo its low 29 bits, hi the next 32

  const LO_LIMIT := 0x2000_0000
  const HI_LIMIT := 0x1_0000_0000
  const COUNT_LIMIT := 0x2000_0000_0000_0000

  lemma AddModulo(count: nat, size: nat, total: nat)
    requires total == count % COUNT_LIMIT + size && total < 2 * COUNT_LIMIT
    ensures (count + size) % COUNT_LIMIT == if total < COUNT_LIMIT then total else total - COUNT_LIMIT
  {
  }

  lemma LowCarry(lo: nat, size: nat)
    requires lo < LO_LIMIT && size < HI_LIMIT
    ensures var lo' := (lo + size) % HI_LIMIT % LO_LIMIT;
            lo + size == ((if lo' < lo then 1 else 0) + size / LO_LIMIT) * LO_LIMIT + lo'
  {
  }

  lemma HighCarry(hi: nat, carry: nat, more: nat)
    requires hi < HI_LIMIT && carry <= 1 && more < 8
    ensures var carried := if carry == 1 then (hi + 1) % HI_LIMIT else hi;
            var top := hi + carry + more;
            (carried + more) % HI_LIMIT == if top < HI_LIMIT then top else top - HI_LIMIT
  {
  }

  /** Noticing the carry by lo' < lo, as the source does, keeps the pair equal to the count. */
  lemma CounterAdvances(hi: nat, lo: nat, count: nat, size: nat)
    requires lo < LO_LIMIT && hi < HI_LIMIT && size < HI_LIMIT
    requires hi * LO_LIMIT + lo == count % COUNT_LIMIT
    ensures var lo' := (lo + size) % HI_LIMIT % LO_LIMIT;
            var carried := if lo' < lo then (hi + 1) % HI_LIMIT else hi;
            var hi' := (carried + size / LO_LIMIT) % HI_LIMIT;
            hi' * LO_LIMIT + lo' == (count + size) % COUNT_LIMIT
  {
    var lo' := (lo + size) % HI_LIMIT % LO_LIMIT;
    var carried := if lo' < lo then (hi + 1) % HI_LIMIT else hi;
    LowCarry(lo, size);
    var top := hi + (if lo' < lo then 1 else 0) + size / LO_LIMIT;
    HighCarry(hi, if lo' < lo then 1 else 0, size / LO_LIMIT);
    AddModulo(count, size, top * LO_LIMIT + lo');
  }

  lemma {:induction false} LittleEndianConcat(v: nat, w: nat, m: nat, n: nat)
    requires v < Power256(m)
    ensures LittleEndian(v + Power256(m) * w, m + n) == LittleEndian(v, m) + LittleEndian(w, n)
  {
    hide ByteOf;
    if m > 0 {
      var rest := Power256(m - 1) * w;
      assert Power256(m) * w == 256 * rest;
      assert (v + 256 * rest) / 256 == v / 256 + rest;
      assert ByteOf(v + 256 * rest) == ByteOf(v) by {
        SameByte(v, rest);
      }
      LittleEndianConcat(v / 256, w, m - 1, n);
    }
  }

  lemma SameByte(v: nat, rest: nat)
    ensures ByteOf(v + 256 * rest) == ByteOf(v)
  {
    assert (v + 256 * rest) % 256 == v % 256;
  }

  lemma LittleEndianFour(v: nat)
    ensures LittleEndian(v, 4) == [ByteOf(v), ByteOf(v / 0x100), ByteOf(v / 0x1_0000), ByteOf(v / 0x100_0000)]
  {
    hide ByteOf;
    DivideTwice(v, 0x100);
    DivideTwice(v, 0x1_0000);
    LittleEndianTwo(v / 0x1_0000);
    LittleEndianTwo(v);
    assert LittleEndian(v / 0x100, 3) == [ByteOf(v / 0x100)] + LittleEndian(v / 0x1_0000, 2);
  }

  lemma LittleEndianTwo(v: nat)
    ensures LittleEndian(v, 2) == [ByteOf(v), ByteOf(v / 0x100)]
  {
    hide ByteOf;
    assert LittleEndian(v / 0x100, 1) == [ByteOf(v / 0x100)];
  }

  lemma DivideTwice(v: nat, n: nat)
    requires n == 0x100 || n == 0x1_0000
    ensures v / n / 0x100 == v / (n * 0x100)
  {
  }

  /** The position in the current block is read off the low counter alone. */
  lemma UsedBytes(hi: nat, lo: nat, count: nat)
    requires hi * LO_LIMIT + lo == count % COUNT_LIMIT
    ensures lo % 64 == count % 64
  {
    var high := count / COUNT_LIMIT * (COUNT_LIMIT / 64) + hi * (LO_LIMIT / 64);
    assert count == 64 * high + lo;
  }

  /** The eight bytes that Finalise takes from the counters are the low-order 64 bits of the
      message length in bits. */
  lemma LengthBytes(hi: nat, lo: nat, count: nat)
    requires lo < LO_LIMIT && hi < HI_LIMIT
    requires hi * LO_LIMIT + lo == count % COUNT_LIMIT
    ensures LittleEndian(8 * count, 8) == LittleEndian((lo * 8) % HI_LIMIT, 4) + LittleEndian(hi, 4)
  {
    hide LittleEndian;
    assert Power256(4) == HI_LIMIT;
    assert Power256(8) == 8 * COUNT_LIMIT;
    var bits := 8 * (count % COUNT_LIMIT);
    LittleEndianConcat(bits, count / COUNT_LIMIT, 8, 0);
    LittleEndianConcat(lo * 8, hi, 4, 4);
    assert 8 * count == bits + Power256(8) * (count / COUNT_LIMIT);
    assert LittleEndian(count / COUNT_LIMIT, 0) == [];
  }

  lemma ZeroCountFromTail(count: nat, used: nat)
    requires used == count % 64
    ensures ZeroCount(count) == if used < 56 then 55 - used else 63 - used + 56
    ensures used >= 56 ==> Zeros(ZeroCount(count)) == Zeros(63 - used) + Zeros(56)
  {
  }

  /** What the padded message holds behind its whole blocks: one block when the length fits
      behind the tail, and two when it does not. */
  function LastBlocks(tail: seq<Byte>, length: seq<Byte>): seq<Byte>
    requires |tail| < 64
  {
    var mark := [Byte(0x80)];
    if |tail| < 56 then tail + mark + Zeros(55 - |tail|) + length
    else tail + mark + Zeros(63 - |tail|) + (Zeros(56) + length)
  }

  lemma PadAppends(m: seq<Byte>, done: nat)
    requires done <= |m|
    ensures var rest := [Byte(0x80)] + Zeros(ZeroCount(|m|)) + LittleEndian(8 * |m|, 8);
            Pad(m) == m + rest && Pad(m)[done..] == m[done..] + rest
  {
    hide LittleEndian, Zeros, ZeroCount;
    var mark, zeros, length := [Byte(0x80)], Zeros(ZeroCount(|m|)), LittleEndian(8 * |m|, 8);
    RegroupFour(m, mark, zeros, length);
    DropFromConcat(m, mark + zeros + length, done);
  }

  lemma DropFromConcat<A>(x: seq<A>, y: seq<A>, n: nat)
    requires n <= |x|
    ensures (x + y)[n..] == x[n..] + y
  {
  }

  lemma PadEndsInLastBlocks(m: seq<Byte>, done: nat)
    requires done == |m| - |m| % 64
    ensures Pad(m)[done..] == LastBlocks(m[done..], LittleEndian(8 * |m|, 8))
  {
    hide LittleEndian, Zeros, ZeroCount, Pad;
    PadAppends(m, done);
    LastBlocksRegroup(m[done..], |m|, LittleEndian(8 * |m|, 8));
  }

  lemma LastBlocksRegroup(tail: seq<Byte>, count: nat, length: seq<Byte>)
    requires |tail| == count % 64
    ensures tail + ([Byte(0x80)] + Zeros(ZeroCount(count)) + length) == LastBlocks(tail, length)
  {
    hide Zeros;
    ZeroCountFromTail(count, |tail|);
    if |tail| < 56 {
      RegroupFour(tail, [Byte(0x80)], Zeros(55 - |tail|), length);
    } else {
      RegroupFive(tail, [Byte(0x80)], Zeros(63 - |tail|), Zeros(56), length);
    }
  }

  lemma AbsorbedByPad(r: Registers, m: seq<Byte>, done: nat)
    requires Absorbed(r, m, done)
    ensures Absorbed(r, Pad(m), done)
  {
    PadAppends(m, done);
    AbsorbedGrows(r, m, [Byte(0x80)] + Zeros(ZeroCount(|m|)) + LittleEndian(8 * |m|, 8), done);
  }

  lemma RegroupFour<A>(x: seq<A>, y: seq<A>, z: seq<A>, w: seq<A>)
    ensures x + (y + z + w) == x + y + z + w
  {
  }

  lemma RegroupFive<A>(x: seq<A>, y: seq<A>, z: seq<A>, w: seq<A>, v: seq<A>)
    ensures x + (y + (z + w) + v) == x + y + z + (w + v)
  {
    assert y + (z + w) + v == y + z + (w + v);
    assert x + (y + z + (w + v)) == x + y + z + (w + v);
  }

  class Context {
    var lo: nat
    var hi: nat
    var a: Word
    var b: Word
    var c: Word
    var d: Word
    const buffer: array<Byte>
    const block: array<Word>
    ghost var message: seq<Byte>  // everything fed since initialisation

    ghost function Registers(): Registers
      reads this
    {
      Rfc.Registers(a, b, c, d)
    }

    ghost predicate Counted()
      reads this
    {
      lo < LO_LIMIT && hi < HI_LIMIT && hi * LO_LIMIT + lo == |message| % COUNT_LIMIT
    }

    /** The registers hold the complete blocks, the buffer holds the rest, and lo and hi split
        the byte count, modulo 2^61, at bit 29. */
    ghost predicate Valid()
      reads this, buffer
    {
      && buffer.Length == 64
      && block.Length == 16
      && Counted()
      && Absorbed(Registers(), message, |message| - |message| % 64)
      && buffer[..|message| % 64] == message[|message| - |message| % 64..]
    }

    constructor ()
      ensures Valid() && message == []
      ensures fresh(buffer) && fresh(block)
    {
      buffer := new Byte[64](_ => Byte(0));
      block := new Word[16](_ => Word(0));
      new;
      Initialise();
    }

    method Initialise()
      requires buffer.Length == 64 && block.Length == 16
      modifies this
      ensures Valid() && message == []
    {
      a := Word(0x67452301);
      b := Word(0xefcdab89);
      c := Word(0x98badcfe);
      d := Word(0x10325476);
      lo := 0;
      hi := 0;
      message := [];
    }

    /** The first n words of the block are those of x. */
    ghost predicate Loaded(x: seq<Word>, n: nat)
      reads this, block
    {
      block.Length == |x| == 16 && n <= 16 && block[..n] == x[..n]
    }

    /** The macro SET, which stores the n-th word of the block and gives it to the step. */
    method Set(data: seq<Byte>, ptr: nat, n: nat, ghost x: seq<Word>) returns (w: Word)
      requires n < |x| == 16 && ptr + 64 <= |data|
      requires x == Decode(data[ptr..ptr + 64]) && Loaded(x, n)
      modifies block
      ensures Loaded(x, n + 1) && w == x[n]
    {
      hide WordOf;
      var p := ptr + 4 * n;
      w := WordOf(data[p], data[p + 1], data[p + 2], data[p + 3]);
      block[n] := w;
    }

    /** The first round also fills the block. */
    method Round1(data: seq<Byte>, ptr: nat, start: Registers, ghost x: seq<Word>) returns (r: Registers)
      requires block.Length == 16 && ptr + 64 <= |data|
      requires x == Decode(data[ptr..ptr + 64])
      modifies block
      ensures Loaded(x, 16) && r == Steps(16, x, start)
    {
      assert start == Steps(0, x, start);
      hide Decode, Steps;
      r := Round1FirstHalf(data, ptr, start, x, start);
      r := Round1SecondHalf(data, ptr, r, x, start);
    }

    method Round1FirstHalf(data: seq<Byte>, ptr: nat, start: Registers, ghost x: seq<Word>, ghost r0: Registers) returns (r: Registers)
      requires ptr + 64 <= |data| && x == Decode(data[ptr..ptr + 64])
      requires Loaded(x, 0) && start == Steps(0, x, r0)
      modifies block
      ensures Loaded(x, 8) && r == Steps(8, x, r0)
    {
      hide Loaded, Decode, FastF, Step, Steps, Operation, F;
      ghost var q := start;
      var w;
      var a, b, c, d := start.a, start.b, start.c, start.d;
      w := Set(data, ptr, 0, x);
      a := Step(FastF(b, c, d), a, b, w, Word(0xd76aa478), 7);
      w := Set(data, ptr, 1, x);
      d := Step(FastF(a, b, c), d, a, w, Word(0xe8c7b756), 12);
      w := Set(data, ptr, 2, x);
      c := Step(FastF(d, a, b), c, d, w, Word(0x242070db), 17);
      w := Set(data, ptr, 3, x);
      b := Step(FastF(c, d, a), b, c, w, Word(0xc1bdceee), 22);
      Unroll(0, x, r0, q);
      q := Rfc.Registers(a, b, c, d);
      assert q == Steps(4, x, r0);
      w := Set(data, ptr, 4, x);
      a := Step(FastF(b, c, d), a, b, w, Word(0xf57c0faf), 7);
      w := Set(data, ptr, 5, x);
      d := Step(FastF(a, b, c), d, a, w, Word(0x4787c62a), 12);
      w := Set(data, ptr, 6, x);
      c := Step(FastF(d, a, b), c, d, w, Word(0xa8304613), 17);
      w := Set(data, ptr, 7, x);
      b := Step(FastF(c, d, a), b, c, w, Word(0xfd469501), 22);
      Unroll(4, x, r0, q);
      q := Rfc.Registers(a, b, c, d);
      assert q == Steps(8, x, r0);
      r := Rfc.Registers(a, b, c, d);
    }

    method Round1SecondHalf(data: seq<Byte>, ptr: nat, start: Registers, ghost x: seq<Word>, ghost r0: Registers) returns (r: Registers)
      requires ptr + 64 <= |data| && x == Decode(data[ptr..ptr + 64])
      requires Loaded(x, 8) && start == Steps(8, x, r0)
      modifies block
      ensures Loaded(x, 16) && r == Steps(16, x, r0)
    {
      hide Loaded, Decode, FastF, Step, Steps, Operation, F;
      ghost var q := start;
      var w;
      var a, b, c, d := start.a, start.b, start.c, start.d;
      w := Set(data, ptr, 8, x);
      a := Step(FastF(b, c, d), a, b, w, Word(0x698098d8), 7);
      w := Set(data, ptr, 9, x);
      d := Step(FastF(a, b, c), d, a, w, Word(0x8b44f7af), 12);
      w := Set(data, ptr, 10, x);
      c := Step(FastF(d, a, b), c, d, w, Word(0xffff5bb1), 17);
      w := Set(data, ptr, 11, x);
      b := Step(FastF(c, d, a), b, c, w, Word(0x895cd7be), 22);
      Unroll(8, x, r0, q);
      q := Rfc.Registers(a, b, c, d);
      assert q == Steps(12, x, r0);
      w := Set(data, ptr, 12, x);
      a := Step(FastF(b, c, d), a, b, w, Word(0x6b901122), 7);
      w := Set(data, ptr, 13, x);
      d := Step(FastF(a, b, c), d, a, w, Word(0xfd987193), 12);
      w := Set(data, ptr, 14, x);
      c := Step(FastF(d, a, b), c, d, w, Word(0xa679438e), 17);
      w := Set(data, ptr, 15, x);
      b := Step(FastF(c, d, a), b, c, w, Word(0x49b40821), 22);
      Unroll(12, x, r0, q);
      q := Rfc.Registers(a, b, c, d);
      assert q == Steps(16, x, r0);
      r := Rfc.Registers(a, b, c, d);
    }

    static method Round2(x: seq<Word>, r16: Registers, ghost r0: Registers) returns (r: Registers)
      requires |x| == 16
      requires r16 == Steps(16, x, r0)
      ensures r == Steps(32, x, r0)
    {
      hide FastF, FastG, Step, Steps, Operation, F, G, H, I;
      ghost var q := r16;
      var a, b, c, d := r16.a, r16.b, r16.c, r16.d;
      a := Step(FastG(b, c, d), a, b, x[1], Word(0xf61e2562), 5);
      d := Step(FastG(a, b, c), d, a, x[6], Word(0xc040b340), 9);
      c := Step(FastG(d, a, b), c, d, x[11], Word(0x265e5a51), 14);
      b := Step(FastG(c, d, a), b, c, x[0], Word(0xe9b6c7aa), 20);
      Unroll(16, x, r0, q);
      q := Rfc.Registers(a, b, c, d);
      assert q == Steps(20, x, r0);
      a := Step(FastG(b, c, d), a, b, x[5], Word(0xd62f105d), 5);
      d := Step(FastG(a, b, c), d, a, x[10], Word(0x02441453), 9);
      c := Step(FastG(d, a, b), c, d, x[15], Word(0xd8a1e681), 14);
      b := Step(FastG(c, d, a), b, c, x[4], Word(0xe7d3fbc8), 20);
      Unroll(20, x, r0, q);
      q := Rfc.Registers(a, b, c, d);
      assert q == Steps(24, x, r0);
      a := Step(FastG(b, c, d), a, b, x[9], Word(0x21e1cde6), 5);
      d := Step(FastG(a, b, c), d, a, x[14], Word(0xc33707d6), 9);
      c := Step(FastG(d, a, b), c, d, x[3], Word(0xf4d50d87), 14);
      b := Step(FastG(c, d, a), b, c, x[8], Word(0x455a14ed), 20);
      Unroll(24, x, r0, q);
      q := Rfc.Registers(a, b, c, d);
      assert q == Steps(28, x, r0);
      a := Step(FastG(b, c, d), a, b, x[13], Word(0xa9e3e905), 5);
      d := Step(FastG(a, b, c), d, a, x[2], Word(0xfcefa3f8), 9);
      c := Step(FastG(d, a, b), c, d, x[7], Word(0x676f02d9), 14);
      b := Step(FastG(c, d, a), b, c, x[12], Word(0x8d2a4c8a), 20);
      Unroll(28, x, r0, q);
      q := Rfc.Registers(a, b, c, d);
      assert q == Steps(32, x, r0);
      r := Rfc.Registers(a, b, c, d);
    }

    static method Round3(x: seq<Word>, r32: Registers, ghost r0: Registers) returns (r: Registers)
      requires |x| == 16
      requires r32 == Steps(32, x, r0)
      ensures r == Steps(48, x, r0)
    {
      hide FastF, FastG, Step, Steps, Operation, F, G, H, I;
      ghost var q := r32;
      var a, b, c, d := r32.a, r32.b, r32.c, r32.d;
      a := Step(H(b, c, d), a, b, x[5], Word(0xfffa3942), 4);
      d := Step(H(a, b, c), d, a, x[8], Word(0x8771f681), 11);
      c := Step(H(d, a, b), c, d, x[11], Word(0x6d9d6122), 16);
      b := Step(H(c, d, a), b, c, x[14], Word(0xfde5380c), 23);
      Unroll(32, x, r0, q);
      q := Rfc.Registers(a, b, c, d);
      assert q == Steps(36, x, r0);
      a := Step(H(b, c, d), a, b, x[1], Word(0xa4beea44), 4);
      d := Step(H(a, b, c), d, a, x[4], Word(0x4bdecfa9), 11);
      c := Step(H(d, a, b), c, d, x[7], Word(0xf6bb4b60), 16);
      b := Step(H(c, d, a), b, c, x[10], Word(0xbebfbc70), 23);
      Unroll(36, x, r0, q);
      q := Rfc.Registers(a, b, c, d);
      assert q == Steps(40, x, r0);
      a := Step(H(b, c, d), a, b, x[13], Word(0x289b7ec6), 4);
      d := Step(H(a, b, c), d, a, x[0], Word(0xeaa127fa), 11);
      c := Step(H(d, a, b), c, d, x[3], Word(0xd4ef3085), 16);
      b := Step(H(c, d, a), b, c, x[6], Word(0x04881d05), 23);
      Unroll(40, x, r0, q);
      q := Rfc.Registers(a, b, c, d);
      assert q == Steps(44, x, r0);
      a := Step(H(b, c, d), a, b, x[9], Word(0xd9d4d039), 4);
      d := Step(H(a, b, c), d, a, x[12], Word(0xe6db99e5), 11);
      c := Step(H(d, a, b), c, d, x[15], Word(0x1fa27cf8), 16);
      b := Step(H(c, d, a), b, c, x[2], Word(0xc4ac5665), 23);
      Unroll(44, x, r0, q);
      q := Rfc.Registers(a, b, c, d);
      assert q == Steps(48, x, r0);
      r := Rfc.Registers(a, b, c, d);
    }

    static method Round4(x: seq<Word>, r48: Registers, ghost r0: Registers) returns (r: Registers)
      requires |x| == 16
      requires r48 == Steps(48, x, r0)
      ensures r == Steps(64, x, r0)
    {
      hide FastF, FastG, Step, Steps, Operation, F, G, H, I;
      ghost var q := r48;
      var a, b, c, d := r48.a, r48.b, r48.c, r48.d;
      a := Step(I(b, c, d), a, b, x[0], Word(0xf4292244), 6);
      d := Step(I(a, b, c), d, a, x[7], Word(0x432aff97), 10);
      c := Step(I(d, a, b), c, d, x[14], Word(0xab9423a7), 15);
      b := Step(I(c, d, a), b, c, x[5], Word(0xfc93a039), 21);
      Unroll(48, x, r0, q);
      q := Rfc.Registers(a, b, c, d);
      assert q == Steps(52, x, r0);
      a := Step(I(b, c, d), a, b, x[12], Word(0x655b59c3), 6);
      d := Step(I(a, b, c), d, a, x[3], Word(0x8f0ccc92), 10);
      c := Step(I(d, a, b), c, d, x[10], Word(0xffeff47d), 15);
      b := Step(I(c, d, a), b, c, x[1], Word(0x85845dd1), 21);
      Unroll(52, x, r0, q);
      q := Rfc.Registers(a, b, c, d);
      assert q == Steps(56, x, r0);
      a := Step(I(b, c, d), a, b, x[8], Word(0x6fa87e4f), 6);
      d := Step(I(a, b, c), d, a, x[15], Word(0xfe2ce6e0), 10);
      c := Step(I(d, a, b), c, d, x[6], Word(0xa3014314), 15);
      b := Step(I(c, d, a), b, c, x[13], Word(0x4e0811a1), 21);
      Unroll(56, x, r0, q);
      q := Rfc.Registers(a, b, c, d);
      assert q == Steps(60, x, r0);
      a := Step(I(b, c, d), a, b, x[4], Word(0xf7537e82), 6);
      d := Step(I(a, b, c), d, a, x[11], Word(0xbd3af235), 10);
      c := Step(I(d, a, b), c, d, x[2], Word(0x2ad7d2bb), 15);
      b := Step(I(c, d, a), b, c, x[9], Word(0xeb86d391), 21);
      Unroll(60, x, r0, q);
      q := Rfc.Registers(a, b, c, d);
      assert q == Steps(64, x, r0);
      r := Rfc.Registers(a, b, c, d);
    }

    /** The body of the loop of TransformFunction: one block. */
    method TransformBlock(data: seq<Byte>, ptr: nat, saved: Registers) returns (r: Registers)
      requires block.Length == 16
      requires ptr + 64 <= |data|
      modifies block
      ensures r == Compress(saved, data[ptr..ptr + 64])
    {
      hide Steps, Add, Decode;
      ghost var x := Decode(data[ptr..ptr + 64]);
      r := Round1(data, ptr, saved, x);
      assert block[..] == x;
      r := Round2(block[..], r, saved);
      r := Round3(block[..], r, saved);
      r := Round4(block[..], r, saved);
      r := Rfc.Registers(Add(r.a, saved.a), Add(r.b, saved.b), Add(r.c, saved.c), Add(r.d, saved.d));
    }

    /** TransformFunction: one or more whole blocks, without touching the counters. */
    method Transform(data: seq<Byte>, size: nat) returns (ptr: nat)
      requires buffer.Length == 64 && block.Length == 16
      requires 0 < size <= |data| && size % 64 == 0
      modifies this`a, this`b, this`c, this`d, block
      ensures ptr == size
      ensures Registers() == Chain(old(Registers()), data[..size])
    {
      hide Compress, Chain;
      ptr := 0;
      var left := size;
      ghost var start := Registers();
      NothingChained(start);
      var r := Rfc.Registers(a, b, c, d);
      while true
        invariant 0 < left && ptr + left == size && ptr % 64 == 0
        invariant r == Chain(start, data[..ptr])
        decreases left
      {
        r := TransformBlock(data, ptr, r);
        ChainStep(start, data[..ptr], data[ptr..ptr + 64]);
        assert data[..ptr + 64] == data[..ptr] + data[ptr..ptr + 64];
        ptr := ptr + 64;
        left := left - 64;
        if left == 0 {
          break;
        }
      }
      a, b, c, d := r.a, r.b, r.c, r.d;
    }

    method TransformBuffer()
      requires buffer.Length == 64 && block.Length == 16
      modifies this`a, this`b, this`c, this`d, block
      ensures Registers() == Chain(old(Registers()), buffer[..])
    {
      hide Chain;
      assert buffer[..][..64] == buffer[..];
      var _ := Transform(buffer[..], 64);
    }

    /** memcpy(&buffer[at], bytes, |bytes|) */
    method CopyIntoBuffer(at: nat, bytes: seq<Byte>)
      requires at + |bytes| <= buffer.Length
      modifies buffer
      ensures buffer[..] == old(buffer[..at]) + bytes + old(buffer[at + |bytes|..])
    {
      forall i | 0 <= i < |bytes| {
        buffer[at + i] := bytes[i];
      }
    }

    /** The counter part of Md5Update. */
    method Count(size: nat)
      requires Counted() && size < HI_LIMIT
      modifies this`lo, this`hi
      ensures lo < LO_LIMIT && hi < HI_LIMIT
      ensures hi * LO_LIMIT + lo == (|message| + size) % COUNT_LIMIT
    {
      CounterAdvances(hi, lo, |message|, size);
      var savedLo := lo;
      lo := (savedLo + size) % HI_LIMIT % LO_LIMIT;
      if lo < savedLo {
        hi := (hi + 1) % HI_LIMIT;
      }
      hi := (hi + size / LO_LIMIT) % HI_LIMIT;
    }

    method Update(data: seq<Byte>)
      requires Valid()
      requires |data| < HI_LIMIT
      modifies this, buffer, block
      ensures Valid()
      ensures message == old(message) + data
    {
      hide Chain, Absorbed;
      UsedBytes(hi, lo, |message|);
      var used := lo % 64;
      Count(|data|);
      ghost var done := |message| - used;
      ghost var tail := buffer[..used];
      AbsorbedGrows(Registers(), message, data, done);
      message := message + data;
      assert message[done..] == tail + data;
      if used != 0 && |data| < 64 - used {
        CopyIntoBuffer(used, data);
        AbsorbedIsWhole(Registers(), message, done);
        return;
      }
      var rest := data;
      if used != 0 {
        rest := FillBuffer(used, data, done);
        done := done + 64;
      }
      UpdateAligned(rest, done);
    }

    /** The part of Md5Update that completes a started block. */
    method FillBuffer(used: nat, data: seq<Byte>, ghost done: nat) returns (rest: seq<Byte>)
      requires buffer.Length == 64 && block.Length == 16
      requires used < 64 <= used + |data|
      requires Absorbed(Registers(), message, done) && message[done..] == buffer[..used] + data
      modifies this`a, this`b, this`c, this`d, buffer, block
      ensures Absorbed(Registers(), message, done + 64) && message[done + 64..] == rest
    {
      hide Chain, Absorbed;
      var free := 64 - used;
      AbsorbedIsWhole(Registers(), message, done);
      FillBlock(message, buffer[..used], data, done);
      CopyIntoBuffer(used, data[..free]);
      AbsorbBlocks(Registers(), message, done, buffer[..]);
      TransformBuffer();
      rest := data[free..];
    }

    /** The part of Md5Update after the buffer has been filled up or found empty. */
    method UpdateAligned(data: seq<Byte>, ghost done: nat)
      requires buffer.Length == 64 && block.Length == 16 && Counted()
      requires Absorbed(Registers(), message, done) && message[done..] == data
      modifies this`a, this`b, this`c, this`d, buffer, block
      ensures Valid()
    {
      hide Chain, Absorbed;
      AbsorbedIsWhole(Registers(), message, done);
      var rest := data;
      ghost var done := done;
      if |rest| >= 64 {
        var whole := WholeBlocks(|rest|);
        AbsorbBlocks(Registers(), message, done, rest[..whole]);
        var advance := Transform(rest, whole);
        rest := rest[advance..];
        done := done + whole;
      }
      AbsorbedIsWhole(Registers(), message, done);
      CopyIntoBuffer(0, rest);
    }

    /** memset(&buffer[from], 0, upto - from) */
    method ClearBuffer(from: nat, upto: nat)
      requires from <= upto <= buffer.Length
      modifies buffer
      ensures buffer[..] == old(buffer[..from]) + Zeros(upto - from) + old(buffer[upto..])
    {
      forall i | from <= i < upto {
        buffer[i] := Byte(0);
      }
    }

    /** The part of Md5Finalise before the length is stored: the mark, the zero bytes, and one
        block in between when they do not leave room for the length. */
    method AppendPadding(used: nat, ghost done: nat) returns (ghost last: nat)
      requires buffer.Length == 64 && block.Length == 16
      requires used < 64 && Absorbed(Registers(), message, done)
      requires message[done..] == buffer[..used]
      modifies this`a, this`b, this`c, this`d, buffer, block
      ensures Absorbed(Registers(), Pad(message), last)
      ensures Pad(message)[last..] == buffer[..56] + LittleEndian(8 * |message|, 8)
    {
      hide Chain, Absorbed, LittleEndian, Zeros, Pad;
      AbsorbedIsWhole(Registers(), message, done);
      PadEndsInLastBlocks(message, done);
      AbsorbedByPad(Registers(), message, done);
      last := done;
      buffer[used] := Byte(0x80);
      var from := used + 1;
      var free := 64 - from;
      if free < 8 {
        ClearBuffer(from, 64);
        AbsorbBlocks(Registers(), Pad(message), done, buffer[..]);
        TransformBuffer();
        last := done + 64;
        from := 0;
      }
      ClearBuffer(from, 56);
    }

    method Finalise() returns (digest: seq<Byte>)
      requires Valid()
      modifies this, buffer, block
      ensures digest == Digest(old(message))
    {
      hide Chain, Absorbed, LittleEndian, BytesOf, Pad;
      UsedBytes(hi, lo, |message|);
      LengthBytes(hi, lo, |message|);
      var used := lo % 64;
      ghost var last := AppendPadding(used, |message| - used);
      lo := (lo * 8) % HI_LIMIT;
      StoreLength();
      AbsorbBlocks(Registers(), Pad(message), last, buffer[..]);
      TransformBuffer();
      AbsorbedIsWhole(Registers(), Pad(message), last + 64);
      digest := BytesOf(a) + BytesOf(b) + BytesOf(c) + BytesOf(d);
    }

    /** The length part of Md5Finalise. */
    method StoreLength()
      requires buffer.Length == 64
      modifies buffer
      ensures buffer[..] == old(buffer[..56]) + LittleEndian(lo, 4) + LittleEndian(hi, 4)
    {
      hide LittleEndian, ByteOf;
      LittleEndianFour(lo);
      LittleEndianFour(hi);
      buffer[56] := ByteOf(lo);
      buffer[57] := ByteOf(lo / 0x100);
      buffer[58] := ByteOf(lo / 0x1_0000);
      buffer[59] := ByteOf(lo / 0x100_0000);
      buffer[60] := ByteOf(hi);
      buffer[61] := ByteOf(hi / 0x100);
      buffer[62] := ByteOf(hi / 0x1_0000);
      buffer[63] := ByteOf(hi / 0x100_0000);
    }
  }

  function Concat(pieces: seq<seq<Byte>>): seq<Byte> {
    if pieces == [] then [] else Concat(pieces[..|pieces| - 1]) + pieces[|pieces| - 1]
  }

  /** However a message is cut into pieces, empty ones included, feeding them in turn gives
      the digest of the whole. */
  method DigestOfPieces(pieces: seq<seq<Byte>>) returns (digest: seq<Byte>)
    requires forall piece <- pieces :: |piece| < HI_LIMIT
    ensures digest == Digest(Concat(pieces))
  {
    var context := new Context();
    for i := 0 to |pieces|
      invariant context.Valid() && fresh(context) && fresh(context.buffer) && fresh(context.block)
      invariant context.message == Concat(pieces[..i])
    {
      context.Update(pieces[i]);
      assert pieces[..i + 1][..i] == pieces[..i];
    }
    assert pieces[..|pieces|] == pieces;
    digest := context.Finalise();
  }

  method Calculate(data: seq<Byte>) returns (digest: seq<Byte>)
    requires |data| < HI_LIMIT
    ensures digest == Digest(data)
  {
    var context := new Context();
    context.Update(data);
    assert [] + data == data;
    digest := context.Finalise();
  }
}
