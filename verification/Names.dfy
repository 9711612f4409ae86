/** The order in which std::map visits its string keys. */
module Names {

  /** std::string's operator<: lexicographic, character by character. */
  predicate Less(a: string, b: string) {
    if b == "" then false
    else if a == "" then true
    else a[0] < b[0] || (a[0] == b[0] && Less(a[1..], b[1..]))
  }

  lemma {:induction false} LessIrreflexive(a: string)
    ensures !Less(a, a)
  {
    if a != "" {
      LessIrreflexive(a[1..]);
    }
  }

  lemma {:induction false} LessTransitive(a: string, b: string, c: string)
    requires Less(a, b) && Less(b, c)
    ensures Less(a, c)
  {
    if a != "" && a[0] == b[0] == c[0] {
      LessTransitive(a[1..], b[1..], c[1..]);
    }
  }

  lemma {:induction false} LessTotal(a: string, b: string)
    ensures a == b || Less(a, b) || Less(b, a)
  {
    if a != "" && b != "" && a[0] == b[0] {
      LessTotal(a[1..], b[1..]);
      assert a == [a[0]] + a[1..] && b == [b[0]] + b[1..];
    }
  }

  /** The order of std::string: at the first difference the smaller character decides, and a
      proper front comes first. */
  lemma {:induction false} LessExactly(a: string, b: string)
    ensures Less(a, b) <==> exists i: nat :: DiffersAt(a, b, i) && (i == |a| || (i < |b| && a[i] < b[i]))
  {
    if a != "" && b != "" && a[0] == b[0] {
      LessExactly(a[1..], b[1..]);
      if i: nat :| DiffersAt(a[1..], b[1..], i) && (i == |a[1..]| || (i < |b[1..]| && a[1..][i] < b[1..][i])) {
        DiffersNext(a, b, i);
        assert DiffersAt(a, b, i + 1);
      }
      if i: nat :| DiffersAt(a, b, i) && (i == |a| || (i < |b| && a[i] < b[i])) {
        DiffersNext(a, b, i - 1);
        assert DiffersAt(a[1..], b[1..], i - 1);
      }
    } else {
      assert a != b ==> DiffersAt(a, b, 0);
    }
  }

  lemma DiffersNext(a: string, b: string, i: nat)
    requires a != "" && b != "" && a[0] == b[0]
    ensures DiffersAt(a, b, i + 1) <==> DiffersAt(a[1..], b[1..], i)
  {
    assert a == [a[0]] + a[1..] && b == [b[0]] + b[1..];
    if i + 1 <= |a| && i + 1 <= |b| {
      assert a[..i + 1] == [a[0]] + a[1..][..i] && b[..i + 1] == [b[0]] + b[1..][..i];
      if a[..i + 1] == b[..i + 1] {
        assert a[1..][..i] == a[..i + 1][1..] == b[..i + 1][1..] == b[1..][..i];
      }
    }
  }

  /** a and b have the same first i characters, and then not. */
  ghost predicate DiffersAt(a: string, b: string, i: nat) {
    && i <= |a| && i <= |b| && a[..i] == b[..i] && a != b
    && (i < |a| && i < |b| ==> a[i] != b[i])
  }

  predicate IsLeast(k: string, keys: set<string>) {
    k in keys && forall j <- keys :: j == k || Less(k, j)
  }

  lemma LeastExists(keys: set<string>)
    requires keys != {}
    ensures exists k :: IsLeast(k, keys)
  {
    var j :| j in keys;
    var rest := keys - {j};
    if rest == {} {
      assert keys == {j};
      assert IsLeast(j, keys);
    } else {
      LeastExists(rest);
      var k :| IsLeast(k, rest);
      assert keys == rest + {j};
      LessTotal(j, k);
      if Less(k, j) {
        assert IsLeast(k, keys);
      } else {
        forall i <- keys ensures i == j || Less(j, i) {
          if i != j && i != k {
            LessTransitive(j, k, i);
          }
        }
        assert IsLeast(j, keys);
      }
    }
  }

  predicate IsGreatest(k: string, keys: set<string>) {
    k in keys && forall j <- keys :: j == k || Less(j, k)
  }

  lemma GreatestExists(keys: set<string>)
    requires keys != {}
    ensures exists k :: IsGreatest(k, keys)
  {
    var j :| j in keys;
    var rest := keys - {j};
    if rest == {} {
      assert keys == {j};
      assert IsGreatest(j, keys);
    } else {
      GreatestExists(rest);
      var k :| IsGreatest(k, rest);
      assert keys == rest + {j};
      LessTotal(j, k);
      if Less(j, k) {
        assert IsGreatest(k, keys);
      } else {
        forall i <- keys ensures i == j || Less(i, j) {
          if i != j && i != k {
            LessTransitive(i, k, j);
          }
        }
        assert IsGreatest(j, keys);
      }
    }
  }

  /** How many keys come before k. */
  ghost function Rank(keys: set<string>, k: string): nat {
    |set j | j in keys && Less(j, k)|
  }

  lemma RankDecreases(keys: set<string>, j: string, k: string)
    requires j in keys && Less(j, k)
    ensures Rank(keys, j) < Rank(keys, k)
  {
    var below := set i | i in keys && Less(i, j);
    var belowK := set i | i in keys && Less(i, k);
    forall i <- below ensures i in belowK {
      LessTransitive(i, j, k);
    }
    LessIrreflexive(j);
    assert j in belowK && j !in below;
    SubsetSize(below, belowK - {j});
  }

  lemma SubsetSize(a: set<string>, b: set<string>)
    requires a <= b
    ensures |a| <= |b|
  {
    if a != {} {
      var x :| x in a;
      SubsetSize(a - {x}, b - {x});
    }
  }
}
