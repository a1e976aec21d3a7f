/** List comprehensions the detector writes over lists of names:
    `[x for x in s if x not in xs]` and `[x for x in s if x in xs]`. */
module Seqs {

  predicate Distinct<T(==)>(s: seq<T>) {
    forall i, j :: 0 <= i < j < |s| ==> s[i] != s[j]
  }

  /** `[x for x in s if x not in xs]`. */
  function Minus<T(==)>(s: seq<T>, xs: seq<T>): (r: seq<T>)
    ensures |r| <= |s|
  {
    if s == [] then []
    else (if s[0] in xs then [] else [s[0]]) + Minus(s[1..], xs)
  }

  /** `[x for x in s if x in xs]`. */
  function Keep<T(==)>(s: seq<T>, xs: seq<T>): (r: seq<T>)
    ensures |r| <= |s|
  {
    if s == [] then []
    else (if s[0] in xs then [s[0]] else []) + Keep(s[1..], xs)
  }

  /** What the filter keeps: the elements of `s` that are not in `xs`. */
  lemma {:induction false} MinusMember<T>(s: seq<T>, xs: seq<T>, x: T)
    ensures x in Minus(s, xs) <==> x in s && x !in xs
  {
    if s != [] {
      MinusMember(s[1..], xs, x);
      assert s == [s[0]] + s[1..];
    }
  }

  /** What the filter keeps: the elements of `s` that are in `xs`. */
  lemma {:induction false} KeepMember<T>(s: seq<T>, xs: seq<T>, x: T)
    ensures x in Keep(s, xs) <==> x in s && x in xs
  {
    if s != [] {
      KeepMember(s[1..], xs, x);
      assert s == [s[0]] + s[1..];
    }
  }

  lemma {:induction false} MinusDistinct<T>(s: seq<T>, xs: seq<T>)
    requires Distinct(s)
    ensures Distinct(Minus(s, xs))
  {
    if s != [] {
      MinusDistinct(s[1..], xs);
      MinusMember(s[1..], xs, s[0]);
      assert s[0] !in s[1..] by {
        forall i | 0 <= i < |s| - 1 ensures s[1..][i] != s[0] {
          assert s[1..][i] == s[i + 1];
        }
      }
    }
  }

  lemma {:induction false} KeepDistinct<T>(s: seq<T>, xs: seq<T>)
    requires Distinct(s)
    ensures Distinct(Keep(s, xs))
  {
    if s != [] {
      KeepDistinct(s[1..], xs);
      KeepMember(s[1..], xs, s[0]);
      assert s[0] !in s[1..] by {
        forall i | 0 <= i < |s| - 1 ensures s[1..][i] != s[0] {
          assert s[1..][i] == s[i + 1];
        }
      }
    }
  }

  /** Filtering out a distinct list's own prefix leaves exactly its suffix. */
  lemma {:induction false} MinusOwnPrefix<T>(s: seq<T>, k: nat)
    requires Distinct(s) && k <= |s|
    ensures Minus(s, s[..k]) == s[k..]
  {
    MinusSplit(s[..k], s[k..], s[..k]);
    assert s[..k] + s[k..] == s;
    MinusAllOut(s[..k], s[..k]);
    MinusNoneOut(s[k..], s[..k]);
  }

  lemma {:induction false} MinusSplit<T>(a: seq<T>, b: seq<T>, xs: seq<T>)
    ensures Minus(a + b, xs) == Minus(a, xs) + Minus(b, xs)
  {
    if a == [] {
      assert a + b == b;
    } else {
      assert (a + b)[1..] == a[1..] + b;
      MinusSplit(a[1..], b, xs);
    }
  }

  lemma {:induction false} KeepSplit<T>(a: seq<T>, b: seq<T>, xs: seq<T>)
    ensures Keep(a + b, xs) == Keep(a, xs) + Keep(b, xs)
  {
    if a == [] {
      assert a + b == b;
    } else {
      var ab := a + b;
      assert ab[0] == a[0];
      assert ab[1..] == a[1..] + b;
      KeepSplit(a[1..], b, xs);
      var head := if a[0] in xs then [a[0]] else [];
      assert Keep(ab, xs) == head + Keep(a[1..] + b, xs);
      assert Keep(a, xs) == head + Keep(a[1..], xs);
    }
  }

  /** Every element the filter keeps comes from `s`. */
  lemma MinusWithin<T>(s: seq<T>, xs: seq<T>)
    ensures forall x :: x in Minus(s, xs) ==> x in s
  {
    forall x | x in Minus(s, xs) ensures x in s {
      MinusMember(s, xs, x);
    }
  }

  /** Filtering one element out of a list without repetitions that holds it
      shortens the list by one. */
  lemma {:induction false} MinusOneLength<T>(s: seq<T>, x: T)
    requires Distinct(s) && x in s
    ensures |Minus(s, [x])| == |s| - 1
  {
    if s[0] == x {
      forall i | 0 <= i < |s[1..]| ensures s[1..][i] !in [x] {
        assert s[1..][i] == s[i + 1];
      }
      MinusNoneOut(s[1..], [x]);
    } else {
      assert Distinct(s[1..]) by {
        forall i, j | 0 <= i < j < |s[1..]| ensures s[1..][i] != s[1..][j] {
          assert s[1..][i] == s[i + 1] && s[1..][j] == s[j + 1];
        }
      }
      assert x in s[1..] by {
        var k :| 0 <= k < |s| && s[k] == x;
        assert s[1..][k - 1] == x;
      }
      MinusOneLength(s[1..], x);
    }
  }

  lemma {:induction false} MinusAllOut<T>(s: seq<T>, xs: seq<T>)
    requires forall i :: 0 <= i < |s| ==> s[i] in xs
    ensures Minus(s, xs) == []
  {
    if s != [] {
      MinusAllOut(s[1..], xs);
    }
  }

  lemma {:induction false} MinusNoneOut<T>(s: seq<T>, xs: seq<T>)
    requires forall i :: 0 <= i < |s| ==> s[i] !in xs
    ensures Minus(s, xs) == s
  {
    if s != [] {
      MinusNoneOut(s[1..], xs);
    }
  }

  lemma {:induction false} KeepAllIn<T>(s: seq<T>, xs: seq<T>)
    requires forall i :: 0 <= i < |s| ==> s[i] in xs
    ensures Keep(s, xs) == s
  {
    if s != [] {
      KeepAllIn(s[1..], xs);
    }
  }

  /** Removing one more element after a first filter is filtering by both. */
  lemma {:induction false} MinusAppend<T>(s: seq<T>, xs: seq<T>, y: T)
    ensures Minus(Minus(s, xs), [y]) == Minus(s, xs + [y])
  {
    if s != [] {
      MinusAppend(s[1..], xs, y);
      var head := if s[0] in xs then [] else [s[0]];
      MinusSplit(head, Minus(s[1..], xs), [y]);
    }
  }

  /** Filtering by what a filter threw away keeps exactly what it kept. */
  lemma {:induction false} MinusOfMinus<T>(s: seq<T>, xs: seq<T>)
    ensures Minus(s, Minus(s, xs)) == Keep(s, xs)
  {
    MinusOfMinusGen(s, s, xs);
  }

  lemma {:induction false} MinusOfMinusGen<T>(t: seq<T>, s: seq<T>, xs: seq<T>)
    requires forall i :: 0 <= i < |t| ==> t[i] in s
    ensures Minus(t, Minus(s, xs)) == Keep(t, xs)
  {
    if t != [] {
      MinusOfMinusGen(t[1..], s, xs);
      MinusMember(s, xs, t[0]);
    }
  }

  /** A filter and its complement split the list's elements between them. */
  lemma {:induction false} KeepMinusPartition<T>(s: seq<T>, xs: seq<T>)
    ensures multiset(Keep(s, xs)) + multiset(Minus(s, xs)) == multiset(s)
  {
    if s != [] {
      var kept, rest := Keep(s[1..], xs), Minus(s[1..], xs);
      KeepMinusPartition(s[1..], xs);
      var k: seq<T> := if s[0] in xs then [s[0]] else [];
      var m: seq<T> := if s[0] in xs then [] else [s[0]];
      assert Keep(s, xs) == k + kept;
      assert Minus(s, xs) == m + rest;
      assert multiset(k) + multiset(m) == multiset{s[0]};
      assert s == [s[0]] + s[1..];
      assert multiset(s) == multiset{s[0]} + multiset(s[1..]);
      assert multiset(k + kept) + multiset(m + rest) == multiset{s[0]} + multiset(kept) + multiset(rest);
    }
  }
  /** Keeping only `x` in a list without repetitions that holds it leaves `[x]`. */
  lemma {:induction false} KeepOne<T>(s: seq<T>, x: T)
    requires Distinct(s) && x in s
    ensures Keep(s, [x]) == [x]
  {
    assert s == [s[0]] + s[1..];
    assert Distinct(s[1..]) by {
      forall i, j | 0 <= i < j < |s| - 1 ensures s[1..][i] != s[1..][j] {
        assert s[1..][i] == s[i + 1] && s[1..][j] == s[j + 1];
      }
    }
    if s[0] == x {
      assert x !in s[1..] by {
        forall i | 0 <= i < |s| - 1 ensures s[1..][i] != x {
          assert s[1..][i] == s[i + 1];
        }
      }
      KeepNone(s[1..], x);
    } else {
      KeepOne(s[1..], x);
    }
  }

  lemma {:induction false} KeepNone<T>(s: seq<T>, x: T)
    requires x !in s
    ensures Keep(s, [x]) == []
  {
    if s != [] {
      assert x !in s[1..] by {
        forall i | 0 <= i < |s| - 1 ensures s[1..][i] != x {
          assert s[1..][i] == s[i + 1];
        }
      }
      KeepNone(s[1..], x);
    }
  }
}
