/** src/libappimage/utils/StringSanitizer.cpp: names that are safe inside a path. */
module StringSanitizer {

  const DIGITS := "0123456789"
  const LOWER := "abcdefghijklmnopqrstuvwxyz"
  const UPPER := "ABCDEFGHIJKLMNOPQRSTUVWXYZ"
  const LETTERS := LOWER + UPPER
  const PATH_SAFE := ".-_"

  predicate Safe(c: char) {
    '0' <= c <= '9' || 'a' <= c <= 'z' || 'A' <= c <= 'Z' || c in {'.', '-', '_'}
  }

  function Replaced(c: char): char { if Safe(c) then c else '_' }

  /** The alphabet as the source composes it: the vector starts out with as many NUL characters
      as it is meant to hold, and the three lists are appended behind them. */
  function Alphabet(): string {
    seq(|DIGITS| + |LETTERS| + |PATH_SAFE|, _ => '\0') + DIGITS + LETTERS + PATH_SAFE
  }

  lemma AlphabetIs(c: char)
    ensures c in Alphabet() <==> Safe(c) || c == '\0'
  {
    var nuls := seq(|DIGITS| + |LETTERS| + |PATH_SAFE|, _ => '\0');
    assert nuls[0] == '\0';
    assert c in Alphabet() <==> c in nuls || c in DIGITS || c in LOWER || c in UPPER || c in PATH_SAFE;
    InDigits(c);
    InLower(c);
    InUpper(c);
  }

  lemma InDigits(c: char)
    ensures c in DIGITS <==> '0' <= c <= '9'
  {
    if '0' <= c <= '9' {
      assert DIGITS[(c - '0') as int] == c;
    }
  }

  lemma InLower(c: char)
    ensures c in LOWER <==> 'a' <= c <= 'z'
  {
    if 'a' <= c <= 'z' {
      assert LOWER[(c - 'a') as int] == c;
    }
  }

  lemma InUpper(c: char)
    ensures c in UPPER <==> 'A' <= c <= 'Z'
  {
    if 'A' <= c <= 'Z' {
      assert UPPER[(c - 'A') as int] == c;
    }
  }

  /** What a C string shows of a buffer. */
  function UpToNul(s: string): string {
    if s == "" || s[0] == '\0' then "" else [s[0]] + UpToNul(s[1..])
  }

  /** The result, as a function: a NUL in the input ends it. */
  function Sanitized(input: string): string {
    if input == "" || input[0] == '\0' then "" else [Replaced(input[0])] + Sanitized(input[1..])
  }

  method SanitizeForPath(input: string) returns (r: string)
    ensures r == Sanitized(input)
  {
    hide Alphabet, Safe;
    var buffer: string := "";
    var alphabet := Alphabet();
    for i := 0 to |input|
      invariant |buffer| == i
      invariant forall j :: 0 <= j < i ==> buffer[j] == if input[j] == '\0' then '\0' else Replaced(input[j])
    {
      var c := input[i];
      AlphabetIs(c);
      if c !in alphabet {
        c := '_';
      }
      buffer := buffer + [c];
    }
    buffer := buffer + ['\0'];
    CString(input, buffer);
    r := UpToNul(buffer);
  }

  lemma {:induction false} CString(input: string, buffer: string)
    requires |buffer| == |input| + 1 && buffer[|input|] == '\0'
    requires forall j :: 0 <= j < |input| ==> buffer[j] == if input[j] == '\0' then '\0' else Replaced(input[j])
    ensures UpToNul(buffer) == Sanitized(input)
  {
    if input != "" && input[0] != '\0' {
      CString(input[1..], buffer[1..]);
    }
  }

  /** Every character of the result is safe, so it holds no separator. It may still be "..": the
      file names are safe because of what the callers put in front of it. */
  lemma {:induction false} SanitizedIsSafe(input: string)
    ensures forall c <- Sanitized(input) :: Safe(c) && c != '/' && c != '\0'
  {
    if input != "" && input[0] != '\0' {
      SanitizedIsSafe(input[1..]);
    }
  }

  /** Exactly the safe strings are left alone. */
  lemma {:induction false} SafeStringsStay(input: string)
    ensures Sanitized(input) == input <==> forall c <- input :: Safe(c)
  {
    if input != "" && input[0] != '\0' {
      SafeStringsStay(input[1..]);
      assert input == [input[0]] + input[1..];
    } else if input != "" {
      assert input[0] in input;
    }
  }

  lemma SanitizeTwice(input: string)
    ensures Sanitized(Sanitized(input)) == Sanitized(input)
  {
    SanitizedIsSafe(input);
    SafeStringsStay(Sanitized(input));
  }

  /** Without NUL characters the result is as long as the input, and keeps what is a digit, a
      letter, a dot, a dash or an underscore. */
  lemma {:induction false} SanitizedAt(input: string, i: nat)
    requires i < |input| && '\0' !in input
    ensures |Sanitized(input)| == |input|
    ensures var c := input[i];
            Sanitized(input)[i]
            == if '0' <= c <= '9' || 'a' <= c <= 'z' || 'A' <= c <= 'Z' || c == '.' || c == '-' || c == '_' then c else '_'
  {
    assert input[0] in input;
    if i > 0 {
      SanitizedAt(input[1..], i - 1);
    } else if |input| > 1 {
      SanitizedAt(input[1..], 0);
    } else {
      assert Sanitized(input[1..]) == "";
    }
  }

  lemma {:induction false} NulEnds(front: string, rest: string)
    requires '\0' !in front
    ensures Sanitized(front + "\0" + rest) == Sanitized(front)
  {
    if front != "" {
      NulEnds(front[1..], rest);
      assert (front + "\0" + rest)[1..] == front[1..] + "\0" + rest && front[0] in front;
    }
  }
}
