/** src/libappimage/utils/hashlib.cpp and path_utils.cpp: the MD5 of a stream, its hexadecimal
    form, and the id of an AppImage path. */
module Hashlib {
  import opened Rfc1321
  import opened Payload
  import Hex
  import Md5

  const CHUNK_SIZE := 4096

  /** An istream: read() takes up to n bytes and fails when there are fewer. */
  class IStream {
    const data: seq<Byte>
    var pos: nat
    var failed: bool
    var gcount: nat

    predicate Valid()
      reads this
    {
      pos <= |data|
    }

    constructor (data: seq<Byte>)
      ensures this.data == data && pos == 0 && !failed && Valid()
    {
      this.data := data;
      pos, failed, gcount := 0, false, 0;
    }

    method Read(n: nat) returns (bytes: seq<Byte>)
      requires Valid()
      modifies this
      ensures Valid() && gcount == |bytes| && pos == old(pos) + |bytes|
      ensures bytes == if old(failed) then [] else if old(pos) + n <= |data| then data[old(pos)..old(pos) + n] else data[old(pos)..]
      ensures failed <==> old(failed) || |bytes| < n
    {
      if failed {
        bytes := [];
      } else if pos + n <= |data| {
        bytes := data[pos..pos + n];
      } else {
        bytes := data[pos..];
        failed := true;
      }
      pos, gcount := pos + |bytes|, |bytes|;
    }
  }

  /** What md5() feeds. readCount is set only after a read that came short; before that it has
      an indeterminate value, here called junk. */
  function FedBy(data: seq<Byte>, junk: nat): seq<Byte>
    requires junk <= CHUNK_SIZE
  {
    if |data| < CHUNK_SIZE then data else data[..junk] + FedBy(data[CHUNK_SIZE..], junk)
  }

  /** What is still to be fed. */
  ghost function Rest(stream: IStream, junk: nat): seq<Byte>
    requires stream.Valid() && junk <= CHUNK_SIZE
    reads stream
  {
    if stream.failed then [] else FedBy(stream.data[stream.pos..], junk)
  }

  lemma FullChunk(data: seq<Byte>, pos: nat, junk: nat)
    requires pos + CHUNK_SIZE <= |data| && junk <= CHUNK_SIZE
    ensures FedBy(data[pos..], junk) == data[pos..pos + CHUNK_SIZE][..junk] + FedBy(data[pos + CHUNK_SIZE..], junk)
  {
    assert data[pos..][..junk] == data[pos..pos + CHUNK_SIZE][..junk];
    assert data[pos..][CHUNK_SIZE..] == data[pos + CHUNK_SIZE..];
  }

  lemma ShortChunk(data: seq<Byte>, pos: nat, junk: nat)
    requires pos <= |data| < pos + CHUNK_SIZE && junk <= CHUNK_SIZE
    ensures FedBy(data[pos..], junk) == data[pos..]
  {
  }

  /** buf.data() receives what was read; the rest keeps its old contents. */
  function Filled(buf: seq<Byte>, bytes: seq<Byte>): (filled: seq<Byte>)
    requires |bytes| <= |buf|
    ensures |filled| == |buf|
  {
    bytes + buf[|bytes|..]
  }

  lemma FilledFront(buf: seq<Byte>, bytes: seq<Byte>, n: nat)
    requires n <= |bytes| <= |buf|
    ensures Filled(buf, bytes)[..n] == bytes[..n]
  {
  }

  /** The condition of the loop: a read, and the count when it came short. */
  method ReadNext(stream: IStream, buf: seq<Byte>, count: nat, ghost junk: nat)
    returns (more: bool, buf': seq<Byte>, count': nat)
    requires stream.Valid() && |buf| == CHUNK_SIZE && junk <= CHUNK_SIZE
    requires !stream.failed ==> count == junk
    modifies stream
    ensures stream.Valid() && |buf'| == CHUNK_SIZE && count' <= CHUNK_SIZE
    ensures !stream.failed ==> count' == junk && old(stream.pos) < stream.pos
    ensures more ==> !old(stream.failed) && old(stream.pos) <= stream.pos
    ensures old(Rest(stream, junk)) == if more then buf'[..count'] + Rest(stream, junk) else []
  {
    hide FedBy, Filled;
    ghost var start := stream.pos;
    count' := count;
    var bytes := stream.Read(CHUNK_SIZE);
    buf' := Filled(buf, bytes);
    if stream.failed {
      count' := stream.gcount;
      more := count' != 0;
      FilledFront(buf, bytes, |bytes|);
      if start + CHUNK_SIZE > |stream.data| {
        ShortChunk(stream.data, start, junk);
      }
    } else {
      more := true;
      FilledFront(buf, bytes, junk);
      FullChunk(stream.data, start, junk);
    }
  }

  method Md5Stream(stream: IStream, junk: nat) returns (digest: seq<Byte>)
    requires stream.Valid() && stream.pos == 0 && !stream.failed
    requires junk <= CHUNK_SIZE
    modifies stream
    ensures digest == Digest(FedBy(stream.data, junk))
  {
    hide Digest, Md5.Context.Valid, FedBy, Rest;
    var context := new Md5.Context();
    var buf := Zeros(CHUNK_SIZE);
    var readCount: nat := junk;
    ghost var all := Rest(stream, junk);
    RestAtStart(stream, junk);
    while true
      invariant |buf| == CHUNK_SIZE && readCount <= CHUNK_SIZE && stream.Valid()
      invariant context.Valid() && fresh(context) && fresh(context.buffer) && fresh(context.block)
      invariant !stream.failed ==> readCount == junk
      invariant all == context.message + Rest(stream, junk)
      decreases |stream.data| - stream.pos, !stream.failed
    {
      var more;
      more, buf, readCount := ReadNext(stream, buf, readCount, junk);
      if !more {
        assert all == context.message;
        break;
      }
      context.Update(buf[..readCount]);
    }
    digest := context.Finalise();
  }

  lemma RestAtStart(stream: IStream, junk: nat)
    requires stream.Valid() && stream.pos == 0 && !stream.failed && junk <= CHUNK_SIZE
    ensures Rest(stream, junk) == FedBy(stream.data, junk)
  {
    assert stream.data[0..] == stream.data;
  }

  /** A full read before any short one leaves the count indeterminate. Whatever it is, the
      whole input is fed if and only if the input is shorter than one chunk. */
  lemma FedIsDataExactly(data: seq<Byte>)
    ensures (forall junk: nat | junk <= CHUNK_SIZE :: FedBy(data, junk) == data) <==> |data| < CHUNK_SIZE
  {
    FedIsDataFor(data, 0);
    if |data| < CHUNK_SIZE {
      forall junk: nat | junk <= CHUNK_SIZE ensures FedBy(data, junk) == data {
        FedIsDataFor(data, junk);
      }
    }
  }

  /** For one count, it is so only in these two cases. */
  lemma FedIsDataFor(data: seq<Byte>, junk: nat)
    requires junk <= CHUNK_SIZE
    ensures FedBy(data, junk) == data <==> |data| < CHUNK_SIZE || junk == CHUNK_SIZE
  {
    FedLength(data, junk);
    if junk == CHUNK_SIZE {
      FullCountFeedsAll(data);
    }
  }

  lemma {:induction false} FedLength(data: seq<Byte>, junk: nat)
    requires junk <= CHUNK_SIZE
    ensures |FedBy(data, junk)| <= |data|
    ensures |data| >= CHUNK_SIZE && junk < CHUNK_SIZE ==> |FedBy(data, junk)| < |data|
  {
    if |data| >= CHUNK_SIZE {
      FedLength(data[CHUNK_SIZE..], junk);
    }
  }

  /** Each full chunk contributes its first junk bytes, and the short one at the end all of its
      bytes. */
  lemma {:induction false} FedAt(data: seq<Byte>, junk: nat, k: nat, i: nat)
    requires junk <= CHUNK_SIZE && i < junk && CHUNK_SIZE * k + CHUNK_SIZE <= |data|
    ensures k * junk + i < |FedBy(data, junk)| && FedBy(data, junk)[k * junk + i] == data[CHUNK_SIZE * k + i]
  {
    hide FedBy;
    var rest := data[CHUNK_SIZE..];
    FedSplits(data, junk);
    if k > 0 {
      FedAt(rest, junk, k - 1, i);
      OneTimeLess(k, junk);
      Behind(data[..junk], FedBy(rest, junk), (k - 1) * junk + i);
    } else {
      assert data[..junk][i] == data[i];
    }
  }

  lemma FedSplits(data: seq<Byte>, junk: nat)
    requires junk <= CHUNK_SIZE <= |data|
    ensures FedBy(data, junk) == data[..junk] + FedBy(data[CHUNK_SIZE..], junk)
  {
  }

  lemma OneTimeLess(k: nat, n: nat)
    requires k > 0
    ensures (k - 1) * n + n == k * n
  {
  }

  lemma Behind(a: seq<Byte>, b: seq<Byte>, n: nat)
    requires n < |b|
    ensures (a + b)[|a| + n] == b[n]
  {
  }

  lemma {:induction false} FedTail(data: seq<Byte>, junk: nat)
    requires junk <= CHUNK_SIZE
    ensures var full := |data| / CHUNK_SIZE;
            && |FedBy(data, junk)| == full * junk + |data| % CHUNK_SIZE
            && FedBy(data, junk)[full * junk..] == data[full * CHUNK_SIZE..]
  {
    if |data| >= CHUNK_SIZE {
      var rest, full := data[CHUNK_SIZE..], |data| / CHUNK_SIZE;
      FedTail(rest, junk);
      assert |rest| / CHUNK_SIZE == full - 1 && |rest| % CHUNK_SIZE == |data| % CHUNK_SIZE;
      OneTimeLess(full, junk);
      DropFront(data[..junk], FedBy(rest, junk), (full - 1) * junk);
      assert rest[(full - 1) * CHUNK_SIZE..] == data[full * CHUNK_SIZE..];
    }
  }

  lemma DropFront(a: seq<Byte>, b: seq<Byte>, n: nat)
    requires n <= |b|
    ensures (a + b)[|a| + n..] == b[n..]
  {
  }

  lemma {:induction false} FullCountFeedsAll(data: seq<Byte>)
    ensures FedBy(data, CHUNK_SIZE) == data
  {
    if |data| >= CHUNK_SIZE {
      FullCountFeedsAll(data[CHUNK_SIZE..]);
    }
  }

  // The hexadecimal form

  function Hexed(digest: seq<Byte>): (s: string)
    ensures |s| == 2 * |digest|
  {
    if digest == [] then "" else Hexed(digest[..|digest| - 1]) + Hex.Pair(digest[|digest| - 1].value, false)
  }

  method ToHex(digest: seq<Byte>) returns (s: string)
    ensures s == Hexed(digest)
  {
    s := "";
    for i := 0 to |digest|
      invariant s == Hexed(digest[..i])
    {
      assert digest[..i + 1][..i] == digest[..i];
      s := s + Hex.Pair(digest[i].value, false);
    }
    assert digest[..|digest|] == digest;
  }

  function FromHex(s: string): Option<seq<Byte>> {
    if s == "" then Some([])
    else if |s| == 1 then None
    else match (FromHex(s[..|s| - 2]), Hex.PairValue(s[|s| - 2], s[|s| - 1]))
      case (Some(front), Some(v)) => Some(front + [Byte(v)])
      case _ => None
  }

  lemma {:induction false} FromHexOfHexed(digest: seq<Byte>)
    ensures FromHex(Hexed(digest)) == Some(digest)
  {
    hide Hex.Pair, Hex.PairValue;
    if digest != [] {
      var front, last := digest[..|digest| - 1], digest[|digest| - 1];
      FromHexOfHexed(front);
      Hex.PairOf(last.value, false);
      PairHasTwo(last.value);
      var s := Hexed(digest);
      assert s[..|s| - 2] == Hexed(front);
      assert s[|s| - 2] == Hex.Pair(last.value, false)[0] && s[|s| - 1] == Hex.Pair(last.value, false)[1];
      assert front + [Byte(last.value)] == digest;
    }
  }

  lemma PairHasTwo(v: Octet)
    ensures |Hex.Pair(v, false)| == 2
  {
  }

  predicate LowerHex(c: char) { '0' <= c <= '9' || 'a' <= c <= 'f' }

  lemma {:induction false} HexedIsLowerHex(digest: seq<Byte>)
    ensures forall c <- Hexed(digest) :: LowerHex(c)
  {
    if digest != [] {
      HexedIsLowerHex(digest[..|digest| - 1]);
    }
  }

  // The id of a path

  /** The bytes of a std::string, whose characters are taken to be bytes. */
  function BytesOfString(s: string): (b: seq<Byte>)
    ensures |b| == |s|
    ensures forall i | 0 <= i < |s| :: b[i].value == s[i] as int % 256
  {
    seq(|s|, i requires 0 <= i < |s| => Byte(s[i] as int % 256))
  }

  function PathToURI(path: string): string {
    if "file://" <= path then path else "file://" + path
  }

  /** hashPath. What std::filesystem::absolute does to the path is a parameter. */
  method HashPath(path: string, absolute: string -> string, junk: nat) returns (id: string)
    requires junk <= CHUNK_SIZE
    ensures path == "" || absolute(path) == "" ==> id == ""
    ensures path != "" && absolute(path) != "" ==>
              id == Hexed(Digest(FedBy(BytesOfString(PathToURI(absolute(path))), junk)))
  {
    hide Digest, FedBy, Hexed;
    if path == "" {
      return "";
    }
    var canonicalPath := absolute(path);
    if canonicalPath == "" {
      return "";
    }
    var uri := PathToURI(canonicalPath);
    var stream := new IStream(BytesOfString(uri));
    var md5raw := Md5Stream(stream, junk);
    id := ToHex(md5raw);
  }

  /** The id that the rest of the library works with. */
  function IdOf(path: string, absolute: string -> string): string {
    if path == "" || absolute(path) == "" then ""
    else Hexed(Digest(BytesOfString(PathToURI(absolute(path)))))
  }

  /** b holds the characters of s, which must be bytes. */
  predicate Spells(b: seq<Byte>, s: string) { |b| == |s| && forall i | 0 <= i < |s| :: b[i].value == s[i] as int }

  predicate IsBytes(s: string) { forall c <- s :: c as int < 256 }

  lemma SpelledBytes(b: seq<Byte>, s: string)
    requires Spells(b, s)
    ensures b == BytesOfString(s)
  {
    forall i | 0 <= i < |s| ensures b[i] == BytesOfString(s)[i] {
      assert b[i].value == BytesOfString(s)[i].value;
    }
  }

  /** For an absolute path whose URI fits in one chunk the id is the MD5 of the bytes of
      "file://" and the path, as 32 lowercase hexadecimal digits that give back its 16 bytes. */
  lemma HashPathIs(path: string, absolute: string -> string, junk: nat)
    requires junk <= CHUNK_SIZE
    requires path != "" && path[0] == '/' && absolute(path) == path
    requires |"file://" + path| < CHUNK_SIZE
    ensures Hexed(Digest(FedBy(BytesOfString(PathToURI(absolute(path))), junk))) == IdOf(path, absolute)
    ensures |IdOf(path, absolute)| == 32 && forall c <- IdOf(path, absolute) :: LowerHex(c)
    ensures forall b | Spells(b, "file://" + path) :: FromHex(IdOf(path, absolute)) == Some(Digest(b))
  {
    hide Digest, FedBy, Hexed, Spells, BytesOfString;
    assert "file://"[0] == 'f';
    FedIsDataFor(BytesOfString("file://" + path), junk);
    HexedIsLowerHex(Digest(BytesOfString("file://" + path)));
    FromHexOfHexed(Digest(BytesOfString("file://" + path)));
    forall b | Spells(b, "file://" + path) ensures b == BytesOfString("file://" + path) {
      SpelledBytes(b, "file://" + path);
    }
  }

  /** Different paths are hashed as different bytes. */
  lemma DifferentPathsDiffer(p: string, q: string)
    requires IsBytes(p) && IsBytes(q) && p != q
    ensures BytesOfString("file://" + p) != BytesOfString("file://" + q)
    ensures Spells(BytesOfString("file://" + p), "file://" + p)
  {
    var u, v := "file://" + p, "file://" + q;
    assert u[7..] == p && v[7..] == q;
    BytesAreSpelled(u);
    BytesAreSpelled(v);
    if BytesOfString(u) == BytesOfString(v) {
      SameSpelling(BytesOfString(u), u, v);
    }
  }

  lemma BytesAreSpelled(s: string)
    requires IsBytes(s)
    ensures Spells(BytesOfString(s), s)
  {
    assert forall i | 0 <= i < |s| :: s[i] in s;
  }

  lemma SameSpelling(b: seq<Byte>, s: string, t: string)
    requires Spells(b, s) && Spells(b, t)
    ensures s == t
  {
    assert forall i | 0 <= i < |s| :: s[i] == b[i].value as char == t[i];
  }

  /** A path that is a URI already is left alone. */
  lemma UriStays(rest: string)
    ensures PathToURI("file://" + rest) == "file://" + rest && PathToURI("/" + rest) == "file:///" + rest
  {
    assert "file://" <= "file://" + rest && ("/" + rest)[0] == '/' && "file://"[0] == 'f';
    assert "file://" + ("/" + rest) == "file:///" + rest;
  }

  lemma HexedExample()
    ensures Hexed([Byte(0x0f), Byte(0xa9)]) == "0fa9"
  {
    var front := [Byte(0x0f)];
    assert [Byte(0x0f), Byte(0xa9)][..1] == front && front[..0] == [];
    assert Hexed(front) == "0f";
  }
}
