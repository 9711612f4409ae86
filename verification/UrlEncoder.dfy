/** src/libappimage/utils/UrlEncoder.cpp: percent-encoding of byte strings. */
module UrlEncoder {
  import opened Rfc1321
  import opened Payload
  import Hex
  import StringSanitizer

  /** isalnum in the "C" locale, and the other characters that stay as they are */
  predicate Kept(c: char) {
    '0' <= c <= '9' || 'a' <= c <= 'z' || 'A' <= c <= 'Z' || c in {'-', '_', '.', '~', '/'}
  }

  function EncodeOctet(v: Octet): string {
    if Kept(v as char) then [v as char] else ['%'] + Hex.Pair(v, true)
  }

  function Encoded(value: seq<Octet>): string {
    if value == [] then "" else Encoded(value[..|value| - 1]) + EncodeOctet(value[|value| - 1])
  }

  method Encode(value: seq<Octet>) returns (escaped: string)
    ensures escaped == Encoded(value)
  {
    escaped := "";
    var uppercase := false;
    for i := 0 to |value|
      invariant escaped == Encoded(value[..i])
      invariant !uppercase
    {
      assert value[..i + 1][..i] == value[..i];
      var c := value[i] as char;
      if Kept(c) {
        escaped := escaped + [c];
        continue;
      }
      uppercase := true;
      ghost var before := escaped;
      escaped := escaped + ['%'];
      escaped := escaped + Hex.Pair(value[i], uppercase);
      assert escaped == before + EncodeOctet(value[i]);
      uppercase := false;
    }
    assert value[..|value|] == value;
  }

  /** The reader of section 2.4.1 of RFC 2396: "%" and two hexadecimal digits are one octet. */
  function Decode(s: string): Option<seq<Octet>> {
    if s == "" then Some([])
    else if s[0] == '%' then
      if |s| < 3 then None
      else match (Hex.PairValue(s[1], s[2]), Decode(s[3..]))
        case (Some(v), Some(rest)) => Some([v] + rest)
        case _ => None
    else if s[0] as int < 256 then
      match Decode(s[1..])
      case Some(rest) => Some([s[0] as int] + rest)
      case None => None
    else None
  }

  lemma DecodeOctet(v: Octet, s: string)
    ensures Decode(EncodeOctet(v) + s) == match Decode(s) case Some(rest) => Some([v] + rest) case None => None
  {
    hide Hex.Pair, Hex.PairValue;
    var code := EncodeOctet(v);
    if Kept(v as char) {
      assert (code + s)[1..] == s;
    } else {
      PairHasTwo(v);
      Hex.PairOf(v, true);
      assert (code + s)[3..] == s;
    }
  }

  lemma PairHasTwo(v: Octet)
    ensures |Hex.Pair(v, true)| == 2
  {
  }

  lemma {:induction false} DecodeEncodedThen(value: seq<Octet>, s: string)
    ensures Decode(Encoded(value) + s) == match Decode(s) case Some(rest) => Some(value + rest) case None => None
  {
    hide EncodeOctet, Decode;
    if value == [] {
      assert Encoded(value) + s == s;
      if Decode(s).Some? {
        assert value + Decode(s).value == Decode(s).value;
      }
    } else {
      var front, last := value[..|value| - 1], value[|value| - 1];
      assert Encoded(value) + s == Encoded(front) + (EncodeOctet(last) + s);
      DecodeEncodedThen(front, EncodeOctet(last) + s);
      DecodeOctet(last, s);
      if Decode(s).Some? {
        assert front + ([last] + Decode(s).value) == value + Decode(s).value;
      }
    }
  }

  /** Decoding undoes encoding, on every byte string; so encoding is injective. */
  lemma DecodeEncode(value: seq<Octet>)
    ensures Decode(Encoded(value)) == Some(value)
  {
    DecodeEncodedThen(value, "");
    assert Encoded(value) + "" == Encoded(value);
    assert value + [] == value;
  }

  lemma EncodeIsInjective(a: seq<Octet>, b: seq<Octet>)
    requires Encoded(a) == Encoded(b)
    ensures a == b
  {
    DecodeEncode(a);
    DecodeEncode(b);
  }

  predicate UpperHex(c: char) { '0' <= c <= '9' || 'A' <= c <= 'F' }

  /** Kept characters, and "%" with two uppercase digits for an octet that is not kept. */
  predicate Canonical(s: string) {
    s == "" || (Kept(s[0]) && Canonical(s[1..]))
    || (|s| >= 3 && s[0] == '%' && UpperHex(s[1]) && UpperHex(s[2])
        && !Kept(Hex.PairValue(s[1], s[2]).value as char) && Canonical(s[3..]))
  }

  lemma CanonicalOctet(v: Octet, s: string)
    requires Canonical(s)
    ensures Canonical(EncodeOctet(v) + s)
  {
    var code := EncodeOctet(v);
    if Kept(v as char) {
      assert (code + s)[1..] == s;
    } else {
      Hex.PairOf(v, true);
      assert (code + s)[3..] == s;
    }
  }

  lemma {:induction false} EncodedThenCanonical(value: seq<Octet>, s: string)
    requires Canonical(s)
    ensures Canonical(Encoded(value) + s)
  {
    hide EncodeOctet, Canonical;
    if value == [] {
      assert Encoded(value) + s == s;
    } else {
      var front, last := value[..|value| - 1], value[|value| - 1];
      assert Encoded(value) + s == Encoded(front) + (EncodeOctet(last) + s);
      CanonicalOctet(last, s);
      EncodedThenCanonical(front, EncodeOctet(last) + s);
    }
  }

  /** The outputs of the encoder are the canonical strings, all of them and nothing else. */
  lemma OutputsAreCanonical(s: string)
    ensures Canonical(s) <==> exists value :: Encoded(value) == s
  {
    if Canonical(s) {
      EncodeDecode(s);
      assert Encoded(Decode(s).value) == s;
    }
    forall value | Encoded(value) == s ensures Canonical(s) {
      EncodedThenCanonical(value, "");
      assert Encoded(value) + "" == Encoded(value);
    }
  }

  lemma {:induction false} EncodedFront(v: Octet, value: seq<Octet>)
    ensures Encoded([v] + value) == EncodeOctet(v) + Encoded(value)
  {
    hide EncodeOctet;
    if value == [] {
      assert ([v] + value)[..0] == [];
      assert Encoded([v]) == Encoded([]) + EncodeOctet(v);
      assert [v] + value == [v];
    } else {
      var front, last := value[..|value| - 1], value[|value| - 1];
      EncodedFront(v, front);
      assert ([v] + value)[..|value|] == [v] + front;
      assert Encoded([v] + value) == EncodeOctet(v) + Encoded(front) + EncodeOctet(last);
    }
  }

  lemma UpperHexPair(c: char, d: char)
    requires UpperHex(c) && UpperHex(d)
    ensures Hex.PairValue(c, d).Some? && Hex.Pair(Hex.PairValue(c, d).value, true) == [c, d]
  {
  }

  lemma {:induction false} EncodeDecode(s: string)
    requires Canonical(s)
    ensures Decode(s).Some? && Encoded(Decode(s).value) == s
  {
    if s == "" {
    } else if Kept(s[0]) {
      EncodeDecode(s[1..]);
      EncodedFront(s[0] as int, Decode(s[1..]).value);
    } else {
      EncodeDecode(s[3..]);
      UpperHexPair(s[1], s[2]);
      EncodedFront(Hex.PairValue(s[1], s[2]).value, Decode(s[3..]).value);
      assert s == ['%'] + [s[1], s[2]] + s[3..];
    }
  }

  /** The characters that stay, one by one. */
  lemma KeptAre(c: char)
    ensures Kept(c) <==> c in "0123456789" || c in "abcdefghijklmnopqrstuvwxyz" || c in "ABCDEFGHIJKLMNOPQRSTUVWXYZ" || c in "-_.~/"
  {
    InDigits(c);
    InLower(c);
    InUpper(c);
  }

  lemma InDigits(c: char)
    ensures c in "0123456789" <==> '0' <= c <= '9'
  {
    StringSanitizer.InDigits(c);
  }

  lemma InLower(c: char)
    ensures c in "abcdefghijklmnopqrstuvwxyz" <==> 'a' <= c <= 'z'
  {
    StringSanitizer.InLower(c);
  }

  lemma InUpper(c: char)
    ensures c in "ABCDEFGHIJKLMNOPQRSTUVWXYZ" <==> 'A' <= c <= 'Z'
  {
    StringSanitizer.InUpper(c);
  }

  /** "/a b" with a slash that stays and a blank that does not, and a byte above 127. */
  lemma EncodedExample()
    ensures Encoded([0x2f, 0x61, 0x20, 0xe9]) == "/a%20%E9"
  {
    var v := [0x2f, 0x61, 0x20, 0xe9];
    assert v[..3][..2][..1][..0] == [] && v[..3][..2][..1] == [0x2f] && v[..3][..2] == [0x2f, 0x61];
    assert v[..3] == [0x2f, 0x61, 0x20];
    assert Encoded(v[..3][..2][..1]) == "/";
    assert Encoded(v[..3][..2]) == "/a";
    assert Encoded(v[..3]) == "/a%20";
  }
}
