/** Two-digit hexadecimal numbers as the C++ streams print them with setw(2) and fill '0'. */
module Hex {
  import opened Rfc1321
  import opened Payload

  function Digit(n: nat, uppercase: bool): char
    requires n < 16
  {
    if n < 10 then '0' + n as char else if uppercase then 'A' + (n - 10) as char else 'a' + (n - 10) as char
  }

  function Pair(v: Octet, uppercase: bool): string {
    [Digit(v / 16, uppercase), Digit(v % 16, uppercase)]
  }

  function DigitValue(c: char): Option<nat> {
    if '0' <= c <= '9' then Some((c - '0') as nat)
    else if 'a' <= c <= 'f' then Some((c - 'a') as nat + 10)
    else if 'A' <= c <= 'F' then Some((c - 'A') as nat + 10)
    else None
  }

  function PairValue(c: char, d: char): (v: Option<Octet>)
  {
    match (DigitValue(c), DigitValue(d))
    case (Some(high), Some(low)) => if high < 16 && low < 16 then Some(16 * high + low) else None
    case _ => None
  }

  lemma DigitOf(n: nat, uppercase: bool)
    requires n < 16
    ensures DigitValue(Digit(n, uppercase)) == Some(n)
  {
  }

  lemma PairOf(v: Octet, uppercase: bool)
    ensures PairValue(Pair(v, uppercase)[0], Pair(v, uppercase)[1]) == Some(v)
  {
    hide DigitValue, Digit;
    DigitOf(v / 16, uppercase);
    DigitOf(v % 16, uppercase);
  }

  lemma DigitsAre(n: nat)
    requires n < 16
    ensures Digit(n, false) == "0123456789abcdef"[n] && Digit(n, true) == "0123456789ABCDEF"[n]
  {
  }
}
