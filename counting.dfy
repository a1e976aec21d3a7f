/** `collections.Counter(s).most_common(n)` over a list of sender addresses:
    the keys in first-seen order, counted, and the `n` with the highest counts,
    ties going to the key seen first. */
module Counting {
  import opened Seqs

  type Entry = (string, nat)

  /** Number of occurrences of `x` in `s`. */
  function Count(s: seq<string>, x: string): nat {
    if s == [] then 0 else (if s[0] == x then 1 else 0) + Count(s[1..], x)
  }

  /** Position of the first occurrence of `x` in `s`, or `|s|` if there is none. */
  function FirstIndex(s: seq<string>, x: string): (i: nat)
    ensures i <= |s|
    ensures i < |s| <==> x in s
    ensures i < |s| ==> s[i] == x
  {
    if s == [] then 0
    else if s[0] == x then 0
    else 1 + FirstIndex(s[1..], x)
  }

  /** The keys of `Counter(s)`: each distinct element once, in the order of its
      first occurrence. */
  function Keys(s: seq<string>): (r: seq<string>)
    ensures Distinct(r)
    ensures forall x :: x in r <==> x in s
    ensures forall i, j :: 0 <= i < j < |r| ==> FirstIndex(s, r[i]) < FirstIndex(s, r[j])
  {
    if s == [] then []
    else
      var init := s[..|s| - 1];
      var last := s[|s| - 1];
      var k := Keys(init);
      assert s == init + [last];
      forall x | x in init ensures FirstIndex(s, x) == FirstIndex(init, x) && FirstIndex(init, x) < |init| {
        FirstIndexAppend(init, last, x);
      }
      if last in k then k
      else
        FirstIndexAppend(init, last, last);
        k + [last]
  }

  lemma {:induction false} FirstIndexAppend(s: seq<string>, y: string, x: string)
    ensures x in s ==> FirstIndex(s + [y], x) == FirstIndex(s, x)
    ensures x !in s && x == y ==> FirstIndex(s + [y], x) == |s|
  {
    if s != [] {
      assert (s + [y])[1..] == s[1..] + [y];
      FirstIndexAppend(s[1..], y, x);
    }
  }

  /** Entry `a` comes before entry `b` in `most_common` order: a higher count,
      or the same count and an earlier first occurrence (the order a stable
      sort by descending count leaves the keys in). */
  predicate Precedes(s: seq<string>, a: Entry, b: Entry) {
    a.1 > b.1 || (a.1 == b.1 && FirstIndex(s, a.0) < FirstIndex(s, b.0))
  }

  /** The entry `Counter(s)` holds for `x`. */
  function EntryOf(s: seq<string>, x: string): (e: Entry)
    ensures e.0 == x && e.1 == Count(s, x)
  {
    (x, Count(s, x))
  }

  lemma PrecedesTransitive(s: seq<string>, a: Entry, b: Entry, c: Entry)
    requires Precedes(s, a, b) && Precedes(s, b, c)
    ensures Precedes(s, a, c)
  {
  }

  /** On the distinct elements of `s` the order is total. */
  lemma PrecedesTotal(s: seq<string>, x: string, y: string)
    requires x in s && y in s && x != y
    ensures Precedes(s, EntryOf(s, x), EntryOf(s, y)) || Precedes(s, EntryOf(s, y), EntryOf(s, x))
  {
  }

  /** Index of the key that comes first in `most_common` order: the highest
      count, and of those the first seen. */
  function BestIndex(keys: seq<string>, s: seq<string>): (b: nat)
    requires keys != []
    ensures b < |keys|
  {
    if |keys| == 1 then 0
    else
      var b := 1 + BestIndex(keys[1..], s);
      if keys[0] == keys[b] || Precedes(s, EntryOf(s, keys[b]), EntryOf(s, keys[0])) then b else 0
  }

  /** The key at `BestIndex` comes before every other key. */
  lemma {:induction false} BestIndexFirst(keys: seq<string>, s: seq<string>)
    requires keys != []
    requires forall j :: 0 <= j < |keys| ==> keys[j] in s
    ensures forall j :: 0 <= j < |keys| && keys[j] != keys[BestIndex(keys, s)] ==>
              Precedes(s, EntryOf(s, keys[BestIndex(keys, s)]), EntryOf(s, keys[j]))
  {
    if |keys| > 1 {
      var b := 1 + BestIndex(keys[1..], s);
      BestIndexFirst(keys[1..], s);
      assert forall j :: 1 <= j < |keys| ==> keys[1..][j - 1] == keys[j];
      if !(keys[0] == keys[b] || Precedes(s, EntryOf(s, keys[b]), EntryOf(s, keys[0]))) {
        PrecedesTotal(s, keys[0], keys[b]);
        forall j | 0 <= j < |keys| && keys[j] != keys[0]
          ensures Precedes(s, EntryOf(s, keys[0]), EntryOf(s, keys[j]))
        {
          if keys[j] != keys[b] {
            PrecedesTransitive(s, EntryOf(s, keys[0]), EntryOf(s, keys[b]), EntryOf(s, keys[j]));
          }
        }
      }
    }
  }

  /** Every key that is left after filtering out one is still an element of `s`. */
  lemma MinusStaysIn(keys: seq<string>, y: string, s: seq<string>)
    requires forall j :: 0 <= j < |keys| ==> keys[j] in s
    ensures forall j :: 0 <= j < |Minus(keys, [y])| ==>
              Minus(keys, [y])[j] in keys && Minus(keys, [y])[j] != y && Minus(keys, [y])[j] in s
  {
    var rest := Minus(keys, [y]);
    forall j | 0 <= j < |rest| ensures rest[j] in keys && rest[j] != y {
      MinusMember(keys, [y], rest[j]);
    }
  }

  /** The `n` keys of `keys` that come first in `most_common` order, each
      with its count: a selection sort cut off after `n` picks. */
  function Top(keys: seq<string>, s: seq<string>, n: int): (r: seq<Entry>)
    requires forall j :: 0 <= j < |keys| ==> keys[j] in s
    ensures n <= 0 ==> r == []
    ensures |r| <= |keys|
    ensures forall i :: 0 <= i < |r| ==> r[i].0 in keys && r[i] == EntryOf(s, r[i].0)
    decreases n
  {
    if n <= 0 || keys == [] then []
    else
      var b := BestIndex(keys, s);
      var rest := Minus(keys, [keys[b]]);
      MinusStaysIn(keys, keys[b], s);
      MinusMember(keys, [keys[b]], keys[b]);
      assert |rest| < |keys| by {
        if |rest| == |keys| {
          MinusNoneLost(keys, [keys[b]]);
        }
      }
      [EntryOf(s, keys[b])] + Top(rest, s, n - 1)
  }

  /** A filter that keeps its input's length drops nothing. */
  lemma {:induction false} MinusNoneLost(keys: seq<string>, xs: seq<string>)
    requires |Minus(keys, xs)| == |keys|
    ensures Minus(keys, xs) == keys
  {
    if keys != [] {
      if keys[0] in xs {
        assert |Minus(keys[1..], xs)| <= |keys| - 1;
      } else {
        MinusNoneLost(keys[1..], xs);
      }
    }
  }

  /** `Counter(s).most_common(n)`. A negative or zero `n` gives no entries. */
  function MostCommon(s: seq<string>, n: int): seq<Entry> {
    var keys := Keys(s);
    assert forall j :: 0 <= j < |keys| ==> keys[j] in s;
    Top(keys, s, n)
  }

  /** Every entry of `r` comes before the next in `most_common` order. */
  predicate Ranked(s: seq<string>, r: seq<Entry>) {
    forall i, j :: 0 <= i < j < |r| ==> Precedes(s, r[i], r[j])
  }

  predicate Omits(r: seq<Entry>, x: string) {
    forall j :: 0 <= j < |r| ==> r[j].0 != x
  }

  /** Every key of `keys` that `r` leaves out comes after every entry of `r`. */
  predicate Complete(s: seq<string>, keys: seq<string>, r: seq<Entry>) {
    forall x, i :: x in keys && 0 <= i < |r| && Omits(r, x) ==> Precedes(s, r[i], EntryOf(s, x))
  }

  /** The key `BestIndex` picks comes before every other key. */
  lemma BestFirst(keys: seq<string>, s: seq<string>, x: string)
    requires forall k :: 0 <= k < |keys| ==> keys[k] in s
    requires keys != [] && x in keys && x != keys[BestIndex(keys, s)]
    ensures Precedes(s, EntryOf(s, keys[BestIndex(keys, s)]), EntryOf(s, x))
  {
    BestIndexFirst(keys, s);
    var p :| 0 <= p < |keys| && keys[p] == x;
  }

  /** One step of `Top`: the best key, then `Top` of the others. */
  lemma TopUnfold(keys: seq<string>, s: seq<string>, n: int)
    requires forall k :: 0 <= k < |keys| ==> keys[k] in s
    requires n > 0 && keys != []
    ensures var b := BestIndex(keys, s);
      var rest := Minus(keys, [keys[b]]);
      && (forall k :: 0 <= k < |rest| ==> rest[k] in keys && rest[k] != keys[b] && rest[k] in s)
      && Top(keys, s, n) == [EntryOf(s, keys[b])] + Top(rest, s, n - 1)
  {
    MinusStaysIn(keys, keys[BestIndex(keys, s)], s);
  }

  /** `Top` lists its entries in `most_common` order. */
  lemma {:induction false} TopRanked(keys: seq<string>, s: seq<string>, n: int)
    requires forall k :: 0 <= k < |keys| ==> keys[k] in s
    ensures Ranked(s, Top(keys, s, n))
    decreases n
  {
    if n > 0 && keys != [] {
      var b := BestIndex(keys, s);
      var rest := Minus(keys, [keys[b]]);
      MinusStaysIn(keys, keys[b], s);
      TopRanked(rest, s, n - 1);
      TopRankedStep(keys, s, n, rest);
    }
  }

  /** One pick of `Top` keeps it ranked. */
  lemma TopRankedStep(keys: seq<string>, s: seq<string>, n: int, rest: seq<string>)
    requires forall k :: 0 <= k < |keys| ==> keys[k] in s
    requires n > 0 && keys != []
    requires rest == Minus(keys, [keys[BestIndex(keys, s)]])
    requires forall k :: 0 <= k < |rest| ==> rest[k] in s
    requires Ranked(s, Top(rest, s, n - 1))
    ensures Ranked(s, Top(keys, s, n))
  {
    TopHeadFirst(keys, s, n);
    RankedCons(s, EntryOf(s, keys[BestIndex(keys, s)]), Top(rest, s, n - 1));
  }

  /** The first pick of `Top` comes before every other key, and the other
      keys are the ones left for the later picks. */
  lemma TopHead(keys: seq<string>, s: seq<string>, n: int)
    requires forall k :: 0 <= k < |keys| ==> keys[k] in s
    requires n > 0 && keys != []
    ensures var b := BestIndex(keys, s);
      var rest := Minus(keys, [keys[b]]);
      var head := EntryOf(s, keys[b]);
      && (forall k :: 0 <= k < |rest| ==> rest[k] in s)
      && Top(keys, s, n) == [head] + Top(rest, s, n - 1)
      && (forall x :: x in keys && x != head.0 ==> x in rest && Precedes(s, head, EntryOf(s, x)))
  {
    var b := BestIndex(keys, s);
    var rest := Minus(keys, [keys[b]]);
    TopUnfold(keys, s, n);
    var head := EntryOf(s, keys[b]);
    forall x | x in keys && x != head.0 ensures x in rest && Precedes(s, head, EntryOf(s, x)) {
      MinusMember(keys, [keys[b]], x);
      BestFirst(keys, s, x);
    }
  }

  /** The first pick of `Top` comes before each later one. */
  lemma TopHeadFirst(keys: seq<string>, s: seq<string>, n: int)
    requires forall k :: 0 <= k < |keys| ==> keys[k] in s
    requires n > 0 && keys != []
    ensures var b := BestIndex(keys, s);
      var rest := Minus(keys, [keys[b]]);
      var head := EntryOf(s, keys[b]);
      && (forall k :: 0 <= k < |rest| ==> rest[k] in s)
      && Top(keys, s, n) == [head] + Top(rest, s, n - 1)
      && var tail := Top(rest, s, n - 1);
      forall k :: 0 <= k < |tail| ==> Precedes(s, head, tail[k])
  {
    var b := BestIndex(keys, s);
    var rest := Minus(keys, [keys[b]]);
    TopUnfold(keys, s, n);
    var head := EntryOf(s, keys[b]);
    var tail := Top(rest, s, n - 1);
    forall k | 0 <= k < |tail| ensures Precedes(s, head, tail[k]) {
      var y := tail[k].0;
      assert y in rest && tail[k] == EntryOf(s, y);
      MinusMember(keys, [keys[b]], y);
      BestFirst(keys, s, y);
    }
  }

  /** A ranked list stays ranked with an entry in front that comes before
      each of its entries. */
  lemma RankedCons(s: seq<string>, head: Entry, tail: seq<Entry>)
    requires Ranked(s, tail) && forall k :: 0 <= k < |tail| ==> Precedes(s, head, tail[k])
    ensures Ranked(s, [head] + tail)
  {
    var r := [head] + tail;
    forall i, j | 0 <= i < j < |r| ensures Precedes(s, r[i], r[j]) {
      assert r[j] == tail[j - 1];
      if i > 0 {
        assert r[i] == tail[i - 1];
      }
    }
  }

  /** A list with one entry in front omits `x` when both parts do. */
  lemma ConsOmits(r: seq<Entry>, head: Entry, tail: seq<Entry>, x: string)
    requires r == [head] + tail && Omits(r, x)
    ensures head.0 != x && Omits(tail, x)
  {
    assert r[0] == head;
    forall j | 0 <= j < |tail| ensures tail[j].0 != x {
      assert tail[j] == r[j + 1];
    }
  }

  /** A key of `keys` that `Top` leaves out comes after each of its entries. */
  lemma {:induction false} TopComplete(keys: seq<string>, s: seq<string>, n: int)
    requires forall k :: 0 <= k < |keys| ==> keys[k] in s
    ensures Complete(s, keys, Top(keys, s, n))
    decreases n
  {
    if n > 0 && keys != [] {
      var b := BestIndex(keys, s);
      var rest := Minus(keys, [keys[b]]);
      MinusStaysIn(keys, keys[b], s);
      TopComplete(rest, s, n - 1);
      TopCompleteStep(keys, s, n, rest);
    }
  }

  /** One pick of `Top` keeps it complete. */
  lemma TopCompleteStep(keys: seq<string>, s: seq<string>, n: int, rest: seq<string>)
    requires forall k :: 0 <= k < |keys| ==> keys[k] in s
    requires n > 0 && keys != []
    requires rest == Minus(keys, [keys[BestIndex(keys, s)]])
    requires forall k :: 0 <= k < |rest| ==> rest[k] in s
    requires Complete(s, rest, Top(rest, s, n - 1))
    ensures Complete(s, keys, Top(keys, s, n))
  {
    var b := BestIndex(keys, s);
    TopHead(keys, s, n);
    CompleteCons(s, keys, rest, EntryOf(s, keys[b]), Top(rest, s, n - 1));
  }

  /** Completeness of a list with an entry in front, from completeness of
      the rest over the keys that are left. */
  lemma CompleteCons(s: seq<string>, keys: seq<string>, rest: seq<string>, head: Entry, tail: seq<Entry>)
    requires Complete(s, rest, tail)
    requires forall x :: x in keys && x != head.0 ==> x in rest && Precedes(s, head, EntryOf(s, x))
    ensures Complete(s, keys, [head] + tail)
  {
    var r := [head] + tail;
    forall x, i | x in keys && 0 <= i < |r| && Omits(r, x) ensures Precedes(s, r[i], EntryOf(s, x)) {
      ConsOmits(r, head, tail, x);
      if i > 0 {
        assert r[i] == tail[i - 1];
      }
    }
  }

  /** `Top` returns as many entries as `n` allows and there are keys. */
  lemma {:induction false} TopLength(keys: seq<string>, s: seq<string>, n: int)
    requires forall k :: 0 <= k < |keys| ==> keys[k] in s
    requires Distinct(keys)
    ensures |Top(keys, s, n)| == if n <= 0 then 0 else if n < |keys| then n else |keys|
    decreases n
  {
    if n > 0 && keys != [] {
      var b := BestIndex(keys, s);
      var rest := Minus(keys, [keys[b]]);
      TopUnfold(keys, s, n);
      MinusDistinct(keys, [keys[b]]);
      MinusOneLength(keys, keys[b]);
      TopLength(rest, s, n - 1);
    }
  }

  /** `most_common(n)`: as many entries as `n` allows and there are distinct
      elements, each an element of `s` with its count, ranked, and complete
      over all elements of `s`. */
  lemma MostCommonRanked(s: seq<string>, n: int)
    ensures |MostCommon(s, n)| == (if n <= 0 then 0 else if n < |Keys(s)| then n else |Keys(s)|)
    ensures forall i :: 0 <= i < |MostCommon(s, n)| ==>
              MostCommon(s, n)[i].0 in s && MostCommon(s, n)[i] == EntryOf(s, MostCommon(s, n)[i].0)
    ensures Ranked(s, MostCommon(s, n))
    ensures Complete(s, s, MostCommon(s, n))
  {
    var keys := Keys(s);
    assert forall j :: 0 <= j < |keys| ==> keys[j] in s;
    var r := MostCommon(s, n);
    TopLength(keys, s, n);
    TopRanked(keys, s, n);
    TopComplete(keys, s, n);
    forall x, i | x in s && 0 <= i < |r| && Omits(r, x) ensures Precedes(s, r[i], EntryOf(s, x)) {
      assert x in keys;
    }
  }

  /** Ranked entries with correct counts have distinct keys. */
  lemma RankedDistinct(s: seq<string>, r: seq<Entry>, i: int, j: int)
    requires Ranked(s, r) && 0 <= i < j < |r|
    requires r[i] == EntryOf(s, r[i].0) && r[j] == EntryOf(s, r[j].0)
    ensures r[i].0 != r[j].0
  {
    assert Precedes(s, r[i], r[j]);
  }

  /** `most_common(1)[0]` of a non-empty list: an element of `s` with its
      count; no element has a higher count, and an element with the same
      count occurs first no earlier. */
  lemma MostCommonFirst(s: seq<string>)
    requires s != []
    ensures |MostCommon(s, 1)| == 1
    ensures MostCommon(s, 1)[0].0 in s && MostCommon(s, 1)[0].1 == Count(s, MostCommon(s, 1)[0].0)
    ensures forall y :: y in s ==> Count(s, y) <= MostCommon(s, 1)[0].1
    ensures forall y :: y in s && Count(s, y) == MostCommon(s, 1)[0].1 ==>
              FirstIndex(s, MostCommon(s, 1)[0].0) <= FirstIndex(s, y)
  {
    MostCommonRanked(s, 1);
    assert s[0] in Keys(s);
    var r := MostCommon(s, 1);
    forall y | y in s ensures Count(s, y) <= r[0].1 && (Count(s, y) == r[0].1 ==> FirstIndex(s, r[0].0) <= FirstIndex(s, y)) {
      if y != r[0].0 {
        assert Omits(r, y);
        assert Precedes(s, r[0], EntryOf(s, y));
      }
    }
  }
}
