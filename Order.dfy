/**
 * Python's ordering of str values (code point by code point, a proper prefix
 * first) and `sorted(list(s))` of a set of strings.
 */
module Order {

  /** a < b on Python strings. */
  predicate Less(a: string, b: string)
    decreases |a|
  {
    if a == [] then b != []
    else b != [] && (a[0] < b[0] || (a[0] == b[0] && Less(a[1..], b[1..])))
  }

  lemma {:induction false} LessIrreflexive(a: string)
    ensures !Less(a, a)
    decreases |a|
  {
    if a != [] {
      LessIrreflexive(a[1..]);
    }
  }

  lemma {:induction false} LessTransitive(a: string, b: string, c: string)
    requires Less(a, b) && Less(b, c)
    ensures Less(a, c)
    decreases |a|
  {
    if a != [] && a[0] == b[0] && b[0] == c[0] {
      LessTransitive(a[1..], b[1..], c[1..]);
    }
  }

  lemma {:induction false} LessTotal(a: string, b: string)
    ensures a == b || Less(a, b) || Less(b, a)
    decreases |a|
  {
    if a != [] && b != [] && a[0] == b[0] {
      LessTotal(a[1..], b[1..]);
      if a[1..] == b[1..] {
        assert a == [a[0]] + a[1..] && b == [b[0]] + b[1..];
      }
    }
  }

  lemma LessAsymmetric(a: string, b: string)
    requires Less(a, b)
    ensures !Less(b, a)
  {
    if Less(b, a) {
      LessTransitive(a, b, a);
      LessIrreflexive(a);
    }
  }

  /** Every later element is strictly greater: sorted and free of duplicates. */
  predicate StrictlySorted(r: seq<string>) {
    forall i, j :: 0 <= i < j < |r| ==> Less(r[i], r[j])
  }

  lemma StrictlySortedDistinct(r: seq<string>, i: nat, j: nat)
    requires StrictlySorted(r) && i < j < |r|
    ensures r[i] != r[j]
  {
    LessIrreflexive(r[i]);
  }

  predicate IsLeast(m: string, s: set<string>) {
    m in s && forall y :: y in s && y != m ==> Less(m, y)
  }

  lemma {:induction false} LeastExists(s: set<string>)
    requires s != {}
    ensures exists m :: IsLeast(m, s)
    decreases |s|
  {
    var x :| x in s;
    if s == {x} {
      assert IsLeast(x, s);
    } else {
      var rest := s - {x};
      LeastExists(rest);
      var m :| IsLeast(m, rest);
      LessTotal(x, m);
      if Less(x, m) {
        forall y | y in s && y != x ensures Less(x, y) {
          if y != m {
            LessTransitive(x, m, y);
          }
        }
        assert IsLeast(x, s);
      } else {
        assert IsLeast(m, s);
      }
    }
  }

  lemma LeastUnique(s: set<string>)
    ensures forall a, b :: IsLeast(a, s) && IsLeast(b, s) ==> a == b
  {
    forall a, b | IsLeast(a, s) && IsLeast(b, s) ensures a == b {
      if a != b {
        LessAsymmetric(a, b);
      }
    }
  }

  /** The smallest element of a non-empty set. */
  function Least(s: set<string>): (m: string)
    requires s != {}
    ensures m in s && forall y :: y in s && y != m ==> Less(m, y)
  {
    LeastExists(s);
    LeastUnique(s);
    var m :| IsLeast(m, s);
    m
  }

  /** sorted(list(s)): the elements of s, each once, in increasing order. */
  function SortedIds(s: set<string>): (r: seq<string>)
    ensures StrictlySorted(r)
    ensures forall x :: x in r <==> x in s
    ensures |r| == |s|
    decreases |s|
  {
    if s == {} then []
    else
      var m := Least(s);
      var rest := SortedIds(s - {m});
      assert forall j :: 0 <= j < |rest| ==> rest[j] in s - {m};
      [m] + rest
  }

  /** sorted(list(s)) is the only strictly increasing sequence holding exactly
      the elements of s. */
  lemma {:induction false} SortedUnique(r: seq<string>, s: set<string>)
    requires StrictlySorted(r) && forall x :: x in r <==> x in s
    ensures r == SortedIds(s)
    decreases |s|
  {
    if r == [] {
      assert s == {};
    } else {
      var m := r[0];
      SortedHeadLeast(r, s);
      SortedTail(r, s);
      SortedUnique(r[1..], s - {m});
      assert SortedIds(s) == [m] + SortedIds(s - {m});
      assert r == [m] + r[1..];
    }
  }

  /** The first element of a strictly increasing sequence is its least. */
  lemma SortedHeadLeast(r: seq<string>, s: set<string>)
    requires StrictlySorted(r) && r != [] && forall x :: x in r <==> x in s
    ensures s != {} && Least(s) == r[0]
  {
    var m := r[0];
    assert m in s;
    forall y | y in s && y != m ensures Less(m, y) {
      var j :| 0 <= j < |r| && r[j] == y;
    }
    assert IsLeast(m, s) && IsLeast(Least(s), s);
    LeastUnique(s);
  }

  /** The rest of a strictly increasing sequence is strictly increasing and
      holds every element but the first. */
  lemma SortedTail(r: seq<string>, s: set<string>)
    requires StrictlySorted(r) && r != [] && forall x :: x in r <==> x in s
    ensures StrictlySorted(r[1..]) && forall x :: x in r[1..] <==> x in s - {r[0]}
  {
    var m, rest := r[0], r[1..];
    assert StrictlySorted(rest) by {
      forall i, j | 0 <= i < j < |rest| ensures Less(rest[i], rest[j]) {
        assert rest[i] == r[i + 1] && rest[j] == r[j + 1];
      }
    }
    forall x ensures x in rest <==> x in s - {m} {
      if x in rest {
        var j :| 0 <= j < |rest| && rest[j] == x;
        assert Less(r[0], r[j + 1]);
        LessIrreflexive(m);
      }
      if x in s - {m} {
        var j :| 0 <= j < |r| && r[j] == x;
        assert rest[j - 1] == x;
      }
    }
  }
}
