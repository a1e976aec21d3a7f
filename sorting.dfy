/** Python's ordering of `str` values (code point by code point, a proper
    prefix first) and `list.sort()` on a list of names. */
module Sorting {
  import opened Seqs

  /** `a < b` on Python strings. */
  predicate Less(a: string, b: string)
    decreases |a|
  {
    if a == [] then b != []
    else if b == [] then false
    else if a[0] != b[0] then a[0] < b[0]
    else Less(a[1..], b[1..])
  }

  predicate Leq(a: string, b: string) {
    a == b || Less(a, b)
  }

  lemma {:induction false} LessIrreflexive(a: string)
    ensures !Less(a, a)
  {
    if a != [] {
      LessIrreflexive(a[1..]);
    }
  }

  lemma {:induction false} LessAsymmetric(a: string, b: string)
    requires Less(a, b)
    ensures !Less(b, a)
  {
    if a != [] && b != [] && a[0] == b[0] {
      LessAsymmetric(a[1..], b[1..]);
    }
  }

  lemma {:induction false} LessTransitive(a: string, b: string, c: string)
    requires Less(a, b) && Less(b, c)
    ensures Less(a, c)
  {
    if a != [] && a[0] == b[0] && b[0] == c[0] {
      LessTransitive(a[1..], b[1..], c[1..]);
    }
  }

  lemma {:induction false} LessTotal(a: string, b: string)
    requires a != b
    ensures Less(a, b) || Less(b, a)
  {
    if a != [] && b != [] && a[0] == b[0] {
      assert a == [a[0]] + a[1..] && b == [b[0]] + b[1..];
      LessTotal(a[1..], b[1..]);
    }
  }

  lemma LeqTransitive(a: string, b: string, c: string)
    requires Leq(a, b) && Leq(b, c)
    ensures Leq(a, c)
  {
    if a != b && b != c {
      LessTransitive(a, b, c);
    }
  }

  predicate Sorted(s: seq<string>) {
    forall i, j :: 0 <= i < j < |s| ==> Leq(s[i], s[j])
  }

  /** Inserts `x` before the first element it does not exceed. */
  function Insert(x: string, s: seq<string>): (r: seq<string>)
    ensures multiset(r) == multiset(s) + multiset{x}
    ensures |r| == |s| + 1
  {
    if s == [] then [x]
    else if Leq(x, s[0]) then [x] + s
    else
      assert s == [s[0]] + s[1..];
      [s[0]] + Insert(x, s[1..])
  }

  lemma {:induction false} InsertSorted(x: string, s: seq<string>)
    requires Sorted(s)
    ensures Sorted(Insert(x, s))
  {
    if s == [] {
    } else if Leq(x, s[0]) {
      var r := [x] + s;
      forall i, j | 0 <= i < j < |r| ensures Leq(r[i], r[j]) {
        if i == 0 && j > 1 {
          LeqTransitive(x, s[0], s[j - 1]);
        }
      }
    } else {
      LessTotal(x, s[0]);
      InsertSorted(x, s[1..]);
      var t := Insert(x, s[1..]);
      var r := [s[0]] + t;
      forall k | 0 <= k < |t| ensures Leq(s[0], t[k]) {
        assert t[k] in multiset(t);
        assert t[k] in multiset(s[1..]) + multiset{x};
        if t[k] != x {
          assert t[k] in s[1..];
          var m :| 0 <= m < |s[1..]| && s[1..][m] == t[k];
          assert s[1 + m] == t[k];
        }
      }
      assert Sorted(r) by {
        forall i, j | 0 <= i < j < |r| ensures Leq(r[i], r[j]) {
          if i > 0 {
            assert r[i] == t[i - 1] && r[j] == t[j - 1];
          } else {
            assert r[j] == t[j - 1];
          }
        }
      }
    }
  }

  /** `sorted(s)`: an ascending permutation of `s`. */
  function Sort(s: seq<string>): (r: seq<string>)
    ensures Sorted(r)
    ensures multiset(r) == multiset(s)
  {
    if s == [] then []
    else
      var t := Sort(s[1..]);
      InsertSorted(s[0], t);
      assert s == [s[0]] + s[1..];
      Insert(s[0], t)
  }

  /** Two different names, in either order, sort into ascending order. */
  lemma SortTwo(x: string, y: string, s: seq<string>)
    requires Less(x, y) && (s == [x, y] || s == [y, x])
    ensures Sort(s) == [x, y]
  {
    assert multiset(s) == multiset{x, y};
    SortedPair(x, y, Sort(s));
  }

  /** The only ascending arrangement of two different names. */
  lemma SortedPair(x: string, y: string, r: seq<string>)
    requires Less(x, y) && Sorted(r) && multiset(r) == multiset{x, y}
    ensures r == [x, y]
  {
    LessIrreflexive(x);
    LessAsymmetric(x, y);
    assert |r| == |multiset(r)| == 2;
    assert r == [r[0], r[1]];
    PairOfMultiset(r[0], r[1], x, y);
    assert Leq(r[0], r[1]);
  }

  /** Two elements with the multiset of two different ones are those two. */
  lemma PairOfMultiset(a: string, b: string, x: string, y: string)
    requires x != y && multiset{a, b} == multiset{x, y}
    ensures (a, b) == (x, y) || (a, b) == (y, x)
  {
    assert multiset{a, b}[x] == 1 && multiset{a, b}[y] == 1;
  }

  /** A sorted list without repetitions is strictly ascending. */
  lemma SortedDistinctAscending(s: seq<string>)
    requires Sorted(s) && Distinct(s)
    ensures forall i, j :: 0 <= i < j < |s| ==> Less(s[i], s[j])
  {
  }

  /** Sorting keeps the elements and does not create repetitions. */
  lemma SortKeepsDistinct(s: seq<string>)
    requires Distinct(s)
    ensures Distinct(Sort(s))
    ensures forall i :: 0 <= i < |Sort(s)| ==> Sort(s)[i] in s
  {
    var r := Sort(s);
    forall i | 0 <= i < |r| ensures r[i] in s {
      assert r[i] in multiset(r);
    }
    forall i, j | 0 <= i < j < |r| ensures r[i] != r[j] {
      if r[i] == r[j] {
        MultisetAtLeastTwo(r, i, j);
        DistinctMultiplicity(s, r[i]);
      }
    }
  }

  lemma MultisetAtLeastTwo(r: seq<string>, i: nat, j: nat)
    requires i < j < |r| && r[i] == r[j]
    ensures multiset(r)[r[i]] >= 2
  {
    assert r == r[..i] + [r[i]] + r[i + 1..j] + [r[j]] + r[j + 1..];
  }

  lemma {:induction false} DistinctMultiplicity(s: seq<string>, x: string)
    requires Distinct(s)
    ensures multiset(s)[x] <= 1
  {
    if s != [] {
      DistinctMultiplicity(s[1..], x);
      assert s == [s[0]] + s[1..];
      if s[0] == x {
        assert x !in s[1..] by {
          forall m | 0 <= m < |s| - 1 ensures s[1..][m] != x {
            assert s[1..][m] == s[m + 1];
          }
        }
      }
    }
  }

  /** A common prefix does not change the order. */
  lemma {:induction false} LessAppendSame(p: string, x: string, y: string)
    ensures Less(p + x, p + y) <==> Less(x, y)
  {
    if p != [] {
      assert (p + x)[1..] == p[1..] + x;
      assert (p + y)[1..] == p[1..] + y;
      LessAppendSame(p[1..], x, y);
    } else {
      assert p + x == x && p + y == y;
    }
  }

  /** Between strings of the same length the order is decided inside them,
      whatever follows. */
  lemma {:induction false} LessSameLength(x: string, y: string, u: string, v: string)
    requires |x| == |y| && Less(x, y)
    ensures Less(x + u, y + v)
  {
    assert x != [];
    assert (x + u)[0] == x[0] && (y + v)[0] == y[0];
    if x[0] == y[0] {
      assert (x + u)[1..] == x[1..] + u;
      assert (y + v)[1..] == y[1..] + v;
      LessSameLength(x[1..], y[1..], u, v);
    }
  }

  /** Same-length middles under a common prefix and suffix keep their order. */
  lemma LessInContext(p: string, x: string, y: string, sfx: string)
    requires |x| == |y| && Less(x, y)
    ensures Less(p + x + sfx, p + y + sfx)
  {
    LessSameLength(x, y, sfx, sfx);
    LessAppendSame(p, x + sfx, y + sfx);
    assert p + x + sfx == p + (x + sfx);
    assert p + y + sfx == p + (y + sfx);
  }
}
