/** The comparators of `bib_sort` and the in-place `sort` it calls with them. */
module Sorting {
  import opened Order
  import opened Corpus

  /** The two comparators `bib_sort` builds: `d3.ascending` of `+date`, or of
      `doc_sort_key`. */
  datatype Comparator = Chronological | Alphabetical

  /** Every document has a sort key wherever the comparator needs one. */
  predicate Keyed(corpus: seq<Doc>, cmp: Comparator)
  {
    cmp == Alphabetical ==> forall i :: 0 <= i < |corpus| ==> SortKey(corpus[i].authors).Returns?
  }

  /** What the comparator compares a document by. A document without a sort
      key gets the empty key in its place: `doc_sort_key` would throw on it, so
      it may only stand where the sort never compares it (a run of one). */
  function Rank(d: Doc, cmp: Comparator): Key
  {
    if cmp == Chronological then Time(d.stamp)
    else match SortKey(d.authors)
      case Returns(key) => Name(key)
      case Throws => Name("")
  }

  /** The key the comparator compares each document by, index by index. The
      source recomputes a key on every comparison; the keys do not change, so
      sorting by this sequence sorts by the comparator. */
  function Ranks(corpus: seq<Doc>, cmp: Comparator): (r: seq<Key>)
    ensures |r| == |corpus| && forall i :: 0 <= i < |corpus| ==> r[i] == Rank(corpus[i], cmp)
  {
    seq(|corpus|, i requires 0 <= i < |corpus| => Rank(corpus[i], cmp))
  }

  /** The sequence holds document indices below n. */
  predicate InRange(xs: seq<nat>, n: nat)
  {
    forall k :: 0 <= k < |xs| ==> xs[k] < n
  }

  /** The document indices are in ascending order of their keys. */
  predicate SortedBy(xs: seq<nat>, ranks: seq<Key>)
    requires InRange(xs, |ranks|)
  {
    forall j, k :: 0 <= j < k < |xs| ==> KeyLe(ranks[xs[j]], ranks[xs[k]])
  }

  /** A sorted sequence stays sorted with an index in front that ranks no
      higher than any of its elements. */
  lemma {:induction false} PrependSorted(y: nat, ys: seq<nat>, ranks: seq<Key>)
    requires y < |ranks| && InRange(ys, |ranks|) && SortedBy(ys, ranks)
    requires forall k :: 0 <= k < |ys| ==> KeyLe(ranks[y], ranks[ys[k]])
    ensures InRange([y] + ys, |ranks|) && SortedBy([y] + ys, ranks)
  {
    var r := [y] + ys;
    forall j, k | 0 <= j < k < |r|
      ensures KeyLe(ranks[r[j]], ranks[r[k]])
    {
      assert r[k] == ys[k - 1];
      if j > 0 {
        assert r[j] == ys[j - 1];
      }
    }
  }

  /** Insertion in front of a sorted sequence whose head ranks no lower. */
  lemma {:induction false} InsertFront(x: nat, xs: seq<nat>, ranks: seq<Key>)
    requires x < |ranks| && InRange(xs, |ranks|) && SortedBy(xs, ranks)
    requires xs != [] && KeyLe(ranks[x], ranks[xs[0]])
    ensures multiset([x] + xs) == multiset(xs) + multiset{x}
    ensures InRange([x] + xs, |ranks|) && SortedBy([x] + xs, ranks)
  {
    var rx, r0 := ranks[x], ranks[xs[0]];
    forall k | 0 <= k < |xs| ensures KeyLe(rx, ranks[xs[k]]) {
      if k > 0 {
        KeyLeTransitive(rx, r0, ranks[xs[k]]);
      }
    }
    PrependSorted(x, xs, ranks);
  }

  /** Keeping the head of a sorted sequence in front of the insertion into its tail. */
  lemma {:induction false} InsertBehind(x: nat, xs: seq<nat>, rest: seq<nat>, ranks: seq<Key>)
    requires x < |ranks| && InRange(xs, |ranks|) && SortedBy(xs, ranks)
    requires xs != [] && !KeyLe(ranks[x], ranks[xs[0]])
    requires multiset(rest) == multiset(xs[1..]) + multiset{x}
    requires InRange(rest, |ranks|) && SortedBy(rest, ranks)
    ensures multiset([xs[0]] + rest) == multiset(xs) + multiset{x}
    ensures InRange([xs[0]] + rest, |ranks|) && SortedBy([xs[0]] + rest, ranks)
  {
    var rx, r0 := ranks[x], ranks[xs[0]];
    KeyLeTotal(rx, r0);
    forall k | 0 <= k < |rest| ensures KeyLe(r0, ranks[rest[k]]) {
      assert rest[k] in multiset(rest);
      if rest[k] != x {
        assert rest[k] in multiset(xs[1..]);
        var j :| 0 <= j < |xs[1..]| && xs[1..][j] == rest[k];
        assert xs[j + 1] == rest[k];
      }
    }
    PrependSorted(xs[0], rest, ranks);
    assert xs == [xs[0]] + xs[1..];
  }

  /** Inserts `x` into a sorted sequence, after every element that ranks below it. */
  function Insert(x: nat, xs: seq<nat>, ranks: seq<Key>): (r: seq<nat>)
    requires x < |ranks| && InRange(xs, |ranks|) && SortedBy(xs, ranks)
    ensures multiset(r) == multiset(xs) + multiset{x}
    ensures InRange(r, |ranks|) && SortedBy(r, ranks)
  {
    if xs == [] then [x]
    else if KeyLe(ranks[x], ranks[xs[0]]) then
      InsertFront(x, xs, ranks);
      [x] + xs
    else
      var rest := Insert(x, xs[1..], ranks);
      InsertBehind(x, xs, rest, ranks);
      [xs[0]] + rest
  }

  /** `array.sort(cmp)`: the same indices, in ascending order of the comparator.
      Insertion sort stands in for the engine's algorithm; nothing is promised
      about the order of ties. */
  method SortBy(xs: seq<nat>, ranks: seq<Key>) returns (ys: seq<nat>)
    requires InRange(xs, |ranks|)
    ensures multiset(ys) == multiset(xs)
    ensures InRange(ys, |ranks|) && SortedBy(ys, ranks)
  {
    ys := [];
    var i := 0;
    while i < |xs|
      invariant 0 <= i <= |xs|
      invariant multiset(ys) == multiset(xs[..i])
      invariant InRange(ys, |ranks|) && SortedBy(ys, ranks)
    {
      ys := Insert(xs[i], ys, ranks);
      assert xs[..i + 1] == xs[..i] + [xs[i]];
      i := i + 1;
    }
    assert xs[..i] == xs;
  }
}
