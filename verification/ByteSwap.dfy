/** src/libappimage/utils/light_byteswap.h, and how a processor of either byte order loads a
    number from memory. */
module ByteSwap {
  datatype Order = Little | Big

  function Join16(hi: bv8, lo: bv8): bv16 { ((hi as bv16) << 8) | (lo as bv16) }
  function Join32(hi: bv16, lo: bv16): bv32 { ((hi as bv32) << 16) | (lo as bv32) }
  function Join64(hi: bv32, lo: bv32): bv64 { ((hi as bv64) << 32) | (lo as bv64) }

  function Low32(v: bv32): bv16 { (v & 0xffff) as bv16 }
  function High32(v: bv32): bv16 { (v >> 16) as bv16 }
  function Low64(v: bv64): bv32 { (v & 0xffff_ffff) as bv32 }
  function High64(v: bv64): bv32 { (v >> 32) as bv32 }

  // The three macros

  function Bswap16(v: bv16): bv16 { ((v & 0xff) << 8) | (v >> 8) }
  function Bswap32(v: bv32): bv32 { Join32(Bswap16(Low32(v)), Bswap16(High32(v))) }
  function Bswap64(v: bv64): bv64 { Join64(Bswap32(Low64(v)), Bswap32(High64(v))) }

  // Loads

  function Load16(data: seq<bv8>, at: nat, order: Order): bv16
    requires at + 2 <= |data|
  {
    match order
    case Little => Join16(data[at + 1], data[at])
    case Big => Join16(data[at], data[at + 1])
  }

  function Load32(data: seq<bv8>, at: nat, order: Order): bv32
    requires at + 4 <= |data|
  {
    match order
    case Little => Join32(Load16(data, at + 2, order), Load16(data, at, order))
    case Big => Join32(Load16(data, at, order), Load16(data, at + 2, order))
  }

  function Load64(data: seq<bv8>, at: nat, order: Order): bv64
    requires at + 8 <= |data|
  {
    match order
    case Little => Join64(Load32(data, at + 4, order), Load32(data, at, order))
    case Big => Join64(Load32(data, at, order), Load32(data, at + 4, order))
  }

  // Numbers in the two encodings of the "Data Encoding" section of the System V ABI

  function Nat8(v: bv8): nat { v as nat }
  function Nat16(v: bv16): nat { v as nat }
  function Nat32(v: bv32): nat { v as nat }
  function Nat64(v: bv64): nat { v as nat }

  function Number(bytes: seq<bv8>, order: Order): nat {
    if bytes == [] then 0
    else match order
      case Little => Nat8(bytes[0]) + 256 * Number(bytes[1..], order)
      case Big => 256 * Number(bytes[..|bytes| - 1], order) + Nat8(bytes[|bytes| - 1])
  }

  function Limit(width: nat): nat {
    if width == 0 then 1 else 256 * Limit(width - 1)
  }

  function Reversed(bytes: seq<bv8>): (r: seq<bv8>)
    ensures |r| == |bytes|
  {
    if bytes == [] then [] else Reversed(bytes[1..]) + [bytes[0]]
  }

  /** The two encodings are each other's reversal. */
  lemma {:induction false} NumberOfReversed(bytes: seq<bv8>)
    ensures Number(Reversed(bytes), Big) == Number(bytes, Little)
  {
    hide Nat8;
    if bytes != [] {
      NumberOfReversed(bytes[1..]);
      var r := Reversed(bytes);
      assert r[..|r| - 1] == Reversed(bytes[1..]) && r[|r| - 1] == bytes[0];
    }
  }

  lemma ByteBelow256(b: bv8)
    ensures Nat8(b) < 256
  {
  }

  lemma SameByte(b: bv8, c: bv8)
    requires Nat8(b) == Nat8(c)
    ensures b == c
  {
  }

  /** A number has one encoding of a given width, and fits that width. */
  lemma {:induction false} EncodingIsUnique(a: seq<bv8>, b: seq<bv8>)
    requires |a| == |b|
    ensures Number(a, Little) == Number(b, Little) <==> a == b
    ensures Number(a, Little) < Limit(|a|)
  {
    hide Nat8;
    if a != [] {
      EncodingIsUnique(a[1..], b[1..]);
      ByteBelow256(a[0]);
      ByteBelow256(b[0]);
      if Number(a, Little) == Number(b, Little) {
        SameByte(a[0], b[0]);
        assert a == [a[0]] + a[1..] && b == [b[0]] + b[1..];
      }
    }
  }

  ghost predicate HasValue(b: bv8, v: nat) { Nat8(b) == v }

  lemma NextByte(b: bv8)
    requires b != 0xff
    ensures Nat8(b + 1) == Nat8(b) + 1
  {
  }

  lemma {:induction false} ByteExists(v: nat)
    requires v < 256
    ensures exists b: bv8 :: HasValue(b, v)
  {
    if v == 0 {
      assert HasValue(0, 0);
    } else {
      ByteExists(v - 1);
      var b: bv8 :| HasValue(b, v - 1);
      NextByte(b);
      assert HasValue(b + 1, v);
    }
  }

  ghost predicate IsEncoding(bytes: seq<bv8>, v: nat, width: nat, order: Order) {
    |bytes| == width && Number(bytes, order) == v
  }

  /** Every number that fits the width has an encoding. */
  lemma {:induction false} EncodingExists(v: nat, width: nat, order: Order)
    requires v < Limit(width)
    ensures exists bytes :: IsEncoding(bytes, v, width, order)
  {
    hide HasValue;
    if width == 0 {
      assert IsEncoding([], v, width, order);
    } else {
      EncodingExists(v / 256, width - 1, order);
      var rest :| IsEncoding(rest, v / 256, width - 1, order);
      ByteExists(v % 256);
      var b: bv8 :| HasValue(b, v % 256);
      AddByte(rest, b, v, width, order);
    }
  }

  lemma AddByte(rest: seq<bv8>, b: bv8, v: nat, width: nat, order: Order)
    requires width > 0 && IsEncoding(rest, v / 256, width - 1, order) && HasValue(b, v % 256)
    ensures IsEncoding(if order.Little? then [b] + rest else rest + [b], v, width, order)
  {
    assert ([b] + rest)[1..] == rest && (rest + [b])[..width - 1] == rest;
  }

  // The macros reverse bytes

  lemma Swap16(hi: bv8, lo: bv8)
    ensures Bswap16(Join16(hi, lo)) == Join16(lo, hi)
  {
  }

  lemma Halves32(hi: bv16, lo: bv16)
    ensures Low32(Join32(hi, lo)) == lo && High32(Join32(hi, lo)) == hi
  {
  }

  lemma Halves64(hi: bv32, lo: bv32)
    ensures Low64(Join64(hi, lo)) == lo && High64(Join64(hi, lo)) == hi
  {
  }

  lemma Swap32(hi: bv16, lo: bv16)
    ensures Bswap32(Join32(hi, lo)) == Join32(Bswap16(lo), Bswap16(hi))
  {
    hide Bswap16, Low32, High32, Join32;
    Halves32(hi, lo);
  }

  lemma Swap64(hi: bv32, lo: bv32)
    ensures Bswap64(Join64(hi, lo)) == Join64(Bswap32(lo), Bswap32(hi))
  {
    hide Bswap32, Low64, High64, Join64;
    Halves64(hi, lo);
  }

  lemma SwapOfLoad16(data: seq<bv8>, at: nat, order: Order)
    requires at + 2 <= |data|
    ensures Bswap16(Load16(data, at, order)) == Load16(data, at, Other(order))
  {
    hide Bswap16, Join16;
    Swap16(data[at], data[at + 1]);
    Swap16(data[at + 1], data[at]);
  }

  function Other(order: Order): Order { if order.Little? then Big else Little }

  lemma SwapOfLoad32(data: seq<bv8>, at: nat, order: Order)
    requires at + 4 <= |data|
    ensures Bswap32(Load32(data, at, order)) == Load32(data, at, Other(order))
  {
    hide Bswap16, Bswap32, Join32, Load16;
    SwapOfLoad16(data, at, order);
    SwapOfLoad16(data, at + 2, order);
    Swap32(Load16(data, at, order), Load16(data, at + 2, order));
    Swap32(Load16(data, at + 2, order), Load16(data, at, order));
  }

  /** Swapping what one processor loads gives what the other one loads. */
  lemma SwapOfLoad64(data: seq<bv8>, at: nat, order: Order)
    requires at + 8 <= |data|
    ensures Bswap64(Load64(data, at, order)) == Load64(data, at, Other(order))
  {
    hide Bswap32, Bswap64, Join64, Load32;
    SwapOfLoad32(data, at, order);
    SwapOfLoad32(data, at + 4, order);
    Swap64(Load32(data, at, order), Load32(data, at + 4, order));
    Swap64(Load32(data, at + 4, order), Load32(data, at, order));
  }

  lemma SwapsAreInvolutions(v: bv16, w: bv32, x: bv64)
    ensures Bswap16(Bswap16(v)) == v && Bswap32(Bswap32(w)) == w && Bswap64(Bswap64(x)) == x
  {
    assert Bswap16(Bswap16(v)) == v;
    Involution32(w);
    Involution64(x);
  }

  lemma Involution32(w: bv32)
    ensures Bswap32(Bswap32(w)) == w
  {
  }

  lemma Involution64(x: bv64)
    ensures Bswap64(Bswap64(x)) == x
  {
  }

  // What a load means

  lemma Expression16(hi: bv8, lo: bv8)
    ensures (((hi as bv16) << 8) | (lo as bv16)) as nat == 0x100 * (hi as nat) + lo as nat
  {
  }

  lemma Unfolded16(hi: bv8, lo: bv8)
    ensures Join16(hi, lo) == (((hi as bv16) << 8) | (lo as bv16))
  {
  }

  lemma Value16(hi: bv8, lo: bv8)
    ensures Nat16(Join16(hi, lo)) == 0x100 * Nat8(hi) + Nat8(lo)
  {
    hide Join16;
    Expression16(hi, lo);
    Unfolded16(hi, lo);
  }

  lemma Expression32(hi: bv16, lo: bv16)
    ensures (((hi as bv32) << 16) | (lo as bv32)) as nat == 0x1_0000 * (hi as nat) + lo as nat
  {
  }

  lemma Unfolded32(hi: bv16, lo: bv16)
    ensures Join32(hi, lo) == (((hi as bv32) << 16) | (lo as bv32))
  {
  }

  lemma Value32(hi: bv16, lo: bv16)
    ensures Nat32(Join32(hi, lo)) == 0x1_0000 * Nat16(hi) + Nat16(lo)
  {
    hide Join32;
    Expression32(hi, lo);
    Unfolded32(hi, lo);
  }

  lemma Expression64(hi: bv32, lo: bv32)
    ensures (((hi as bv64) << 32) | (lo as bv64)) as nat == 0x1_0000_0000 * (hi as nat) + lo as nat
  {
  }

  lemma Unfolded64(hi: bv32, lo: bv32)
    ensures Join64(hi, lo) == (((hi as bv64) << 32) | (lo as bv64))
  {
  }

  lemma Value64(hi: bv32, lo: bv32)
    ensures Nat64(Join64(hi, lo)) == 0x1_0000_0000 * Nat32(hi) + Nat32(lo)
  {
    hide Join64;
    Expression64(hi, lo);
    Unfolded64(hi, lo);
  }

  lemma NumberOfTwo(bytes: seq<bv8>, order: Order)
    requires |bytes| == 2
    ensures Number(bytes, order) == match order
                                    case Little => Nat8(bytes[0]) + 256 * Nat8(bytes[1])
                                    case Big => 256 * Nat8(bytes[0]) + Nat8(bytes[1])
  {
    assert Number(bytes[1..], Little) == Nat8(bytes[1]);
    assert Number(bytes[..1], Big) == Nat8(bytes[0]);
  }

  lemma NumberOfJoined(a: seq<bv8>, b: seq<bv8>, order: Order)
    ensures Number(a + b, order) == match order
                                    case Little => Number(a, order) + Limit(|a|) * Number(b, order)
                                    case Big => Limit(|b|) * Number(a, order) + Number(b, order)
  {
    if order.Little? {
      JoinedLittle(a, b);
    } else {
      JoinedBig(a, b);
    }
  }

  lemma {:induction false} JoinedLittle(a: seq<bv8>, b: seq<bv8>)
    ensures Number(a + b, Little) == Number(a, Little) + Limit(|a|) * Number(b, Little)
  {
    hide Nat8;
    if a == [] {
      assert a + b == b;
    } else {
      JoinedLittle(a[1..], b);
      assert (a + b)[1..] == a[1..] + b && (a + b)[0] == a[0];
      Distribute(Number(a[1..], Little), Limit(|a| - 1), Number(b, Little));
    }
  }

  lemma {:induction false} JoinedBig(a: seq<bv8>, b: seq<bv8>)
    ensures Number(a + b, Big) == Limit(|b|) * Number(a, Big) + Number(b, Big)
  {
    hide Nat8;
    if b == [] {
      assert a + b == a;
    } else {
      var front := b[..|b| - 1];
      JoinedBig(a, front);
      assert (a + b)[..|a + b| - 1] == a + front && (a + b)[|a + b| - 1] == b[|b| - 1];
      Distribute(Number(front, Big), Limit(|b| - 1), Number(a, Big));
    }
  }

  lemma Distribute(x: nat, y: nat, z: nat)
    ensures 256 * (x + y * z) == 256 * x + (256 * y) * z
    ensures 256 * (y * z + x) == (256 * y) * z + 256 * x
  {
  }

  lemma Limits()
    ensures Limit(2) == 0x1_0000 && Limit(4) == 0x1_0000_0000
    ensures Limit(8) == 0x1_0000_0000_0000_0000
  {
  }

  lemma Load16Number(data: seq<bv8>, at: nat, order: Order)
    requires at + 2 <= |data|
    ensures Nat16(Load16(data, at, order)) == Number(data[at..at + 2], order)
  {
    hide Join16, Number, Nat8, Nat16;
    NumberOfTwo(data[at..at + 2], order);
    Value16(data[at], data[at + 1]);
    Value16(data[at + 1], data[at]);
  }

  lemma Load32Number(data: seq<bv8>, at: nat, order: Order)
    requires at + 4 <= |data|
    ensures Nat32(Load32(data, at, order)) == Number(data[at..at + 4], order)
  {
    hide Load16, Join32, Number, Nat16, Nat32;
    Load16Number(data, at, order);
    Load16Number(data, at + 2, order);
    NumberOfHalves32(data, at, order);
    var first, second := Load16(data, at, order), Load16(data, at + 2, order);
    match order
    case Little =>
      Value32(second, first);
    case Big =>
      Value32(first, second);
  }

  lemma NumberOfHalves32(data: seq<bv8>, at: nat, order: Order)
    requires at + 4 <= |data|
    ensures var first, second := Number(data[at..at + 2], order), Number(data[at + 2..at + 4], order);
            Number(data[at..at + 4], order)
            == if order.Little? then first + 0x1_0000 * second else 0x1_0000 * first + second
  {
    hide Number, Limit;
    Limits();
    NumberOfJoined(data[at..at + 2], data[at + 2..at + 4], order);
    assert data[at..at + 2] + data[at + 2..at + 4] == data[at..at + 4];
  }

  /** A processor that loads a number in its own byte order gets that number. */
  lemma Load64Number(data: seq<bv8>, at: nat, order: Order)
    requires at + 8 <= |data|
    ensures Nat64(Load64(data, at, order)) == Number(data[at..at + 8], order)
  {
    hide Load32, Join64, Number, Nat32, Nat64;
    Load32Number(data, at, order);
    Load32Number(data, at + 4, order);
    NumberOfHalves64(data, at, order);
    var first, second := Load32(data, at, order), Load32(data, at + 4, order);
    match order
    case Little =>
      Value64(second, first);
    case Big =>
      Value64(first, second);
  }

  lemma NumberOfHalves64(data: seq<bv8>, at: nat, order: Order)
    requires at + 8 <= |data|
    ensures var first, second := Number(data[at..at + 4], order), Number(data[at + 4..at + 8], order);
            Number(data[at..at + 8], order)
            == if order.Little? then first + 0x1_0000_0000 * second else 0x1_0000_0000 * first + second
  {
    hide Number, Limit;
    Limits();
    NumberOfJoined(data[at..at + 4], data[at + 4..at + 8], order);
    assert data[at..at + 4] + data[at + 4..at + 8] == data[at..at + 8];
  }

  /** A 32-bit number that goes through the 64-bit swap ends up in the upper half. */
  lemma WideSwapShifts(v: bv32)
    ensures Nat64(Bswap64(v as bv64)) == 0x1_0000_0000 * Nat32(Bswap32(v))
  {
    hide Bswap32, Join64;
    assert Low64(v as bv64) == v && High64(v as bv64) == 0;
    SwapOfZero();
    Value64(Bswap32(v), 0);
  }

  lemma SwapOfZero()
    ensures Bswap32(0) == 0
  {
  }

  lemma SwapExamples()
    ensures Bswap16(0x1234) == 0x3412 && Bswap32(0x12345678) == 0x78563412
    ensures Bswap64(0x0123456789abcdef) == 0xefcdab8967452301
  {
  }

  lemma NumberExample()
    ensures Number([0x12, 0x34], Little) == 0x3412 && Number([0x12, 0x34], Big) == 0x1234
  {
    NumberOfTwo([0x12, 0x34], Little);
    NumberOfTwo([0x12, 0x34], Big);
    ByteValues();
  }

  lemma ByteValues()
    ensures Nat8(0x12) == 0x12 && Nat8(0x34) == 0x34
  {
  }
}
