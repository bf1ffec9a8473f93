/** Ranking of counted pairs: `list.sort(key=lambda a: a[1], reverse=...)`
    and `list.reverse()` as data_parser.py applies them to the output of
    `count_individuals`. */
module Ranking {
  import opened Tallies

  /** Whether `p` may stand before `q` in a list sorted by count; with
      `reverse` (Python's `reverse=True`) larger counts come first. */
  predicate Precedes<K>(p: Tally<K>, q: Tally<K>, reverse: bool)
  {
    if reverse then p.count >= q.count else p.count <= q.count
  }

  /** Sorted by count: non-increasing when `reverse`, non-decreasing otherwise. */
  predicate Ordered<K>(ts: seq<Tally<K>>, reverse: bool)
  {
    forall i, j :: 0 <= i < j < |ts| ==> Precedes(ts[i], ts[j], reverse)
  }

  predicate NonIncreasing(xs: seq<nat>)
  {
    forall i, j :: 0 <= i < j < |xs| ==> xs[i] >= xs[j]
  }

  /** Places `p` in front of the first element it may precede. Ties go in
      front, so an element that came earlier stays earlier (a stable sort). */
  function Insert<K>(p: Tally<K>, ts: seq<Tally<K>>, reverse: bool): (r: seq<Tally<K>>)
    ensures multiset(r) == multiset(ts) + multiset{p}
  {
    if |ts| == 0 then [p]
    else if Precedes(p, ts[0], reverse) then [p] + ts
    else
      assert ts == [ts[0]] + ts[1..];
      [ts[0]] + Insert(p, ts[1..], reverse)
  }

  /** Inserting into a sorted list keeps it sorted. */
  lemma {:induction false} InsertOrdered<K>(p: Tally<K>, ts: seq<Tally<K>>, reverse: bool)
    requires Ordered(ts, reverse)
    ensures Ordered(Insert(p, ts, reverse), reverse)
  {
    if |ts| > 0 && !Precedes(p, ts[0], reverse) {
      var rest := Insert(p, ts[1..], reverse);
      InsertOrdered(p, ts[1..], reverse);
      forall k | 0 <= k < |rest|
        ensures Precedes(ts[0], rest[k], reverse)
      {
        assert rest[k] in multiset(rest);
        if rest[k] != p {
          assert rest[k] in multiset(ts[1..]);
          var m :| 0 <= m < |ts[1..]| && ts[1..][m] == rest[k];
          assert ts[m + 1] == rest[k];
        }
      }
    }
  }

  /** `ts.sort(key=count, reverse=reverse)`: a stable insertion sort. */
  function SortByCount<K>(ts: seq<Tally<K>>, reverse: bool): (r: seq<Tally<K>>)
    ensures multiset(r) == multiset(ts)
    ensures Ordered(r, reverse)
  {
    if |ts| == 0 then []
    else
      assert ts == [ts[0]] + ts[1..];
      var rest := SortByCount(ts[1..], reverse);
      InsertOrdered(ts[0], rest, reverse);
      Insert(ts[0], rest, reverse)
  }

  /** `xs.reverse()`. */
  function Reverse<T>(xs: seq<T>): (r: seq<T>)
    ensures |r| == |xs|
    ensures forall i :: 0 <= i < |xs| ==> r[i] == xs[|xs| - 1 - i]
  {
    if |xs| == 0 then [] else Reverse(xs[1..]) + [xs[0]]
  }

  lemma {:induction false} ReversePermutation<T>(xs: seq<T>)
    ensures multiset(Reverse(xs)) == multiset(xs)
  {
    if |xs| > 0 {
      assert xs == [xs[0]] + xs[1..];
      ReversePermutation(xs[1..]);
    }
  }

  /** Reversing an ascending list gives a descending one. */
  lemma ReverseOrdered<K>(ts: seq<Tally<K>>)
    requires Ordered(ts, false)
    ensures Ordered(Reverse(ts), true)
  {
    var r := Reverse(ts);
    forall i, j | 0 <= i < j < |r|
      ensures Precedes(r[i], r[j], true)
    {
      assert Precedes(ts[|ts| - 1 - j], ts[|ts| - 1 - i], false);
    }
  }

  lemma DescendingCounts<K>(ts: seq<Tally<K>>)
    requires Ordered(ts, true)
    ensures NonIncreasing(Counts(ts))
  {
    var cs := Counts(ts);
    forall i, j | 0 <= i < j < |cs|
      ensures cs[i] >= cs[j]
    {
      assert Precedes(ts[i], ts[j], true);
    }
  }

  // ---------------------------------------------------------------------
  // What a permutation keeps

  /** The first element of `a` sits somewhere in any permutation `b`, and the
      rests are permutations of each other. */
  lemma PermutationRemove<T>(a: seq<T>, b: seq<T>) returns (j: nat)
    requires |a| > 0 && multiset(a) == multiset(b)
    ensures j < |b| && b[j] == a[0]
    ensures multiset(a[1..]) == multiset(b[..j] + b[j + 1..])
  {
    assert a == [a[0]] + a[1..];
    assert multiset(a[1..]) == multiset(a) - multiset{a[0]};
    assert a[0] in multiset(b);
    j :| 0 <= j < |b| && b[j] == a[0];
    assert b == b[..j] + [b[j]] + b[j + 1..];
    assert multiset(b) == multiset(b[..j]) + multiset{b[j]} + multiset(b[j + 1..]);
    assert multiset(b[..j] + b[j + 1..]) == multiset(b[..j]) + multiset(b[j + 1..]);
  }

  lemma {:induction false} TotalConcat<K>(u: seq<Tally<K>>, v: seq<Tally<K>>)
    ensures Total(u + v) == Total(u) + Total(v)
  {
    if |v| == 0 {
      assert u + v == u;
    } else {
      assert (u + v)[..|u + v| - 1] == u + v[..|v| - 1];
      assert (u + v)[|u + v| - 1] == v[|v| - 1];
      TotalConcat(u, v[..|v| - 1]);
    }
  }

  /** Reordering the pairs does not change the sum of their counts. */
  lemma {:induction false} TotalPermutation<K>(a: seq<Tally<K>>, b: seq<Tally<K>>)
    requires multiset(a) == multiset(b)
    ensures Total(a) == Total(b)
    decreases |a|
  {
    if |a| == 0 {
      assert |b| == |multiset(b)| == 0;
    } else {
      var j := PermutationRemove(a, b);
      TotalPermutation(a[1..], b[..j] + b[j + 1..]);
      assert a == [a[0]] + a[1..];
      TotalConcat([a[0]], a[1..]);
      assert b == b[..j] + ([b[j]] + b[j + 1..]);
      TotalConcat(b[..j], [b[j]] + b[j + 1..]);
      TotalConcat([b[j]], b[j + 1..]);
      TotalConcat(b[..j], b[j + 1..]);
      assert Total([a[0]]) == a[0].count by {
        assert [a[0]][..0] == [];
      }
    }
  }

  /** Reordering the pairs reorders their counts. */
  lemma {:induction false} CountsPermutation<K>(a: seq<Tally<K>>, b: seq<Tally<K>>)
    requires multiset(a) == multiset(b)
    ensures multiset(Counts(a)) == multiset(Counts(b))
    decreases |a|
  {
    if |a| == 0 {
      assert |b| == |multiset(b)| == 0;
    } else {
      var j := PermutationRemove(a, b);
      var b' := b[..j] + b[j + 1..];
      CountsPermutation(a[1..], b');
      assert Counts(a) == [a[0].count] + Counts(a[1..]);
      assert Counts(b) == Counts(b[..j]) + [b[j].count] + Counts(b[j + 1..]);
      assert Counts(b') == Counts(b[..j]) + Counts(b[j + 1..]);
    }
  }

  /** A list of numbers sorted descending is determined by its multiset. */
  lemma {:induction false} NonIncreasingUnique(xs: seq<nat>, ys: seq<nat>)
    requires NonIncreasing(xs) && NonIncreasing(ys)
    requires multiset(xs) == multiset(ys)
    ensures xs == ys
    decreases |xs|
  {
    if |xs| == 0 {
      assert |ys| == |multiset(ys)| == 0;
    } else {
      assert |ys| == |multiset(ys)| == |xs|;
      assert xs == [xs[0]] + xs[1..];
      assert ys == [ys[0]] + ys[1..];
      assert xs[0] in multiset(ys);
      assert ys[0] in multiset(xs);
      assert xs[0] == ys[0];
      assert multiset(xs[1..]) == multiset(xs) - multiset{xs[0]};
      assert multiset(ys[1..]) == multiset(ys) - multiset{ys[0]};
      NonIncreasingUnique(xs[1..], ys[1..]);
    }
  }

  /** Without repeats, every value occurs at most once, and conversely. */
  lemma DistinctIffSingle<T>(s: seq<T>)
    ensures Distinct(s) <==> forall x :: multiset(s)[x] <= 1
  {
    if Distinct(s) {
      forall x
        ensures multiset(s)[x] <= 1
      {
        DistinctMultiplicity(s, x);
      }
    }
    if !Distinct(s) {
      var i, j :| 0 <= i < j < |s| && s[i] == s[j];
      assert s == s[..j] + [s[j]] + s[j + 1..];
      assert s[i] in multiset(s[..j]);
      assert multiset(s)[s[j]] >= 2;
    }
  }

  // ---------------------------------------------------------------------
  // The ranking of data_parser.py

  /** The counted pairs sorted by count, largest first: `count_of_artists`
      and `count_of_songs` after their `sort(reverse=True, ...)`. */
  function Rank<T(==)>(elements: seq<T>, order: seq<T>): (r: seq<Tally<T>>)
    requires Enumerates(order, elements)
    ensures multiset(r) == multiset(CountIndividuals(elements, order))
    ensures Ordered(r, true)
    ensures |r| == |Elements(elements)|
  {
    var r := SortByCount(CountIndividuals(elements, order), true);
    assert |r| == |multiset(r)|;
    r
  }

  /** The per-day pairs of `parse_dates`: sorted ascending, then reversed. */
  function RankAscendingReversed<T(==)>(elements: seq<T>, order: seq<T>): (r: seq<Tally<T>>)
    requires Enumerates(order, elements)
    ensures multiset(r) == multiset(CountIndividuals(elements, order))
    ensures Ordered(r, true)
    ensures |r| == |Elements(elements)|
  {
    var up := SortByCount(CountIndividuals(elements, order), false);
    ReversePermutation(up);
    ReverseOrdered(up);
    assert |up| == |multiset(up)|;
    Reverse(up)
  }

  /** What every ranking of `elements` satisfies: each distinct element once,
      with its number of occurrences, largest count first. */
  predicate IsRanking<T(==)>(r: seq<Tally<T>>, elements: seq<T>)
  {
    && Ordered(r, true)
    && Distinct(Keys(r))
    && Elements(Keys(r)) == Elements(elements)
    && (forall i :: 0 <= i < |r| ==> r[i].count == Occurrences(elements, r[i].key))
  }

  /** Any permutation of the counted pairs that is sorted descending is a
      ranking, and its counts sum to the number of elements. */
  lemma PermutedCountIsRanking<T>(r: seq<Tally<T>>, elements: seq<T>, order: seq<T>)
    requires Enumerates(order, elements)
    requires multiset(r) == multiset(CountIndividuals(elements, order))
    requires Ordered(r, true)
    ensures IsRanking(r, elements)
    ensures |r| == |Elements(elements)|
    ensures Total(r) == |elements|
    ensures forall i :: 0 <= i < |r| ==> r[i].count >= 1
  {
    var c := CountIndividuals(elements, order);
    TotalPermutation(r, c);
    assert |r| == |multiset(r)| == |multiset(c)| == |c|;
    PermutedCounts(r, elements, order);
    PermutedKeysDistinct(r, elements, order);
    PermutedKeysCover(r, elements, order);
  }

  /** Each pair of a permutation of the counted pairs carries its key's
      number of occurrences. */
  lemma PermutedCounts<T>(r: seq<Tally<T>>, elements: seq<T>, order: seq<T>)
    requires Enumerates(order, elements)
    requires multiset(r) == multiset(CountIndividuals(elements, order))
    ensures forall i :: 0 <= i < |r| ==> r[i].count == Occurrences(elements, r[i].key) && r[i].count >= 1
  {
    var c := CountIndividuals(elements, order);
    forall i | 0 <= i < |r|
      ensures r[i].count == Occurrences(elements, r[i].key) && r[i].count >= 1
    {
      assert r[i] in multiset(c);
      CountIndividualsMembers(elements, order, r[i]);
    }
  }

  /** A permutation of the counted pairs names no key twice. */
  lemma PermutedKeysDistinct<T>(r: seq<Tally<T>>, elements: seq<T>, order: seq<T>)
    requires Enumerates(order, elements)
    requires multiset(r) == multiset(CountIndividuals(elements, order))
    ensures Distinct(Keys(r))
  {
    var c := CountIndividuals(elements, order);
    DistinctKeysDistinct(c);
    DistinctIffSingle(c);
    DistinctIffSingle(r);
    assert Distinct(r);
    PermutedCounts(r, elements, order);
    forall i, j | 0 <= i < j < |r|
      ensures Keys(r)[i] != Keys(r)[j]
    {
      assert r[i] != r[j];
    }
  }

  /** The keys of a permutation of the counted pairs are the elements. */
  lemma PermutedKeysCover<T>(r: seq<Tally<T>>, elements: seq<T>, order: seq<T>)
    requires Enumerates(order, elements)
    requires multiset(r) == multiset(CountIndividuals(elements, order))
    ensures Elements(Keys(r)) == Elements(elements)
  {
    forall k | k in Elements(Keys(r))
      ensures k in Elements(elements)
    {
      var i :| 0 <= i < |r| && Keys(r)[i] == k;
      assert r[i] in multiset(CountIndividuals(elements, order));
      CountIndividualsMembers(elements, order, r[i]);
    }
    forall k | k in Elements(elements)
      ensures k in Elements(Keys(r))
    {
      var t := Tally(k, Occurrences(elements, k));
      CountIndividualsMembers(elements, order, t);
      assert t in multiset(r);
      var i :| 0 <= i < |r| && r[i] == t;
      assert Keys(r)[i] == k;
    }
  }

  /** The ranked list is a ranking of the input. */
  lemma RankIsRanking<T>(elements: seq<T>, order: seq<T>)
    requires Enumerates(order, elements)
    ensures IsRanking(Rank(elements, order), elements)
    ensures |Rank(elements, order)| == |Elements(elements)|
    ensures Total(Rank(elements, order)) == |elements|
  {
    PermutedCountIsRanking(Rank(elements, order), elements, order);
  }

  /** The per-day list, sorted ascending and reversed, is a ranking too. */
  lemma RankAscendingReversedIsRanking<T>(elements: seq<T>, order: seq<T>)
    requires Enumerates(order, elements)
    ensures IsRanking(RankAscendingReversed(elements, order), elements)
    ensures Total(RankAscendingReversed(elements, order)) == |elements|
  {
    PermutedCountIsRanking(RankAscendingReversed(elements, order), elements, order);
  }

  /** Every ranking of the same input lists the same counts in the same
      positions; only the keys of tied counts can change places. So the
      numbers in the report do not depend on the set's iteration order. */
  lemma RankingCountsUnique<T>(r1: seq<Tally<T>>, r2: seq<Tally<T>>, elements: seq<T>,
                               o1: seq<T>, o2: seq<T>)
    requires Enumerates(o1, elements) && Enumerates(o2, elements)
    requires multiset(r1) == multiset(CountIndividuals(elements, o1)) && Ordered(r1, true)
    requires multiset(r2) == multiset(CountIndividuals(elements, o2)) && Ordered(r2, true)
    ensures Counts(r1) == Counts(r2)
  {
    CountIndividualsOrderIndependent(elements, o1, o2);
    CountsPermutation(r1, r2);
    DescendingCounts(r1);
    DescendingCounts(r2);
    NonIncreasingUnique(Counts(r1), Counts(r2));
  }

  // ---------------------------------------------------------------------
  // The rows the report's tables take from a ranking

  /** `ranked[0]`, …, `ranked[k]`: the loop `for i in range(0, k + 1)` of
      the top tables, one pair more than the `k` in their headlines. */
  function MostFirst<K>(ranked: seq<Tally<K>>, k: nat): (r: seq<Tally<K>>)
    requires k < |ranked|
    ensures |r| == k + 1
    ensures forall j {:trigger r[j]} :: 0 <= j <= k ==> r[j] == ranked[j]
  {
    if k == 0 then [ranked[0]] else MostFirst(ranked, k - 1) + [ranked[k]]
  }

  /** `ranked[-1]`, `ranked[-2]`, …, `ranked[-(l + 1)]`: the loop
      `for i in range(1, l + 2)` of the least-streamed table. */
  function LeastFirst<K>(ranked: seq<Tally<K>>, l: nat): (r: seq<Tally<K>>)
    requires l < |ranked|
    ensures |r| == l + 1
    ensures forall j :: 0 <= j <= l ==> r[j] == ranked[|ranked| - 1 - j]
  {
    if l == 0 then [ranked[|ranked| - 1]]
    else LeastFirst(ranked, l - 1) + [ranked[|ranked| - 1 - l]]
  }

  /** `ts` lists the most frequent elements of `elements`, most frequent
      first: each pair is an element with its number of occurrences, no
      element appears twice, and no element left out occurs more often than
      the last one listed. */
  predicate IsTop<T(==)>(ts: seq<Tally<T>>, elements: seq<T>)
  {
    && |ts| > 0
    && (forall i :: 0 <= i < |ts| ==> ts[i].key in elements && ts[i].count == Occurrences(elements, ts[i].key))
    && Distinct(Keys(ts))
    && Ordered(ts, true)
    && (forall x :: x in elements && x !in Keys(ts) ==> Occurrences(elements, x) <= ts[|ts| - 1].count)
  }

  /** `ts` lists the least frequent elements of `elements`, least frequent
      first: as `IsTop`, with the order and the bound turned around. */
  predicate IsBottom<T(==)>(ts: seq<Tally<T>>, elements: seq<T>)
  {
    && |ts| > 0
    && (forall i :: 0 <= i < |ts| ==> ts[i].key in elements && ts[i].count == Occurrences(elements, ts[i].key))
    && Distinct(Keys(ts))
    && Ordered(ts, false)
    && (forall x :: x in elements && x !in Keys(ts) ==> Occurrences(elements, x) >= ts[|ts| - 1].count)
  }

  /** The key at position `i` of a ranking is an element. */
  lemma RankingKey<T>(r: seq<Tally<T>>, elements: seq<T>, i: nat)
    requires IsRanking(r, elements) && i < |r|
    ensures r[i].key in elements
  {
    assert Keys(r)[i] == r[i].key;
    assert r[i].key in Elements(Keys(r));
  }

  /** Every element sits at some position of a ranking. */
  lemma RankingPosition<T>(r: seq<Tally<T>>, elements: seq<T>, x: T) returns (i: nat)
    requires IsRanking(r, elements) && x in elements
    ensures i < |r| && r[i].key == x
  {
    assert x in Elements(Keys(r));
    var j :| 0 <= j < |Keys(r)| && Keys(r)[j] == x;
    i := j;
  }

  /** The first `k + 1` pairs of a ranking are the top `k + 1` elements. */
  lemma TopOfRanking<T>(r: seq<Tally<T>>, elements: seq<T>, k: nat)
    requires IsRanking(r, elements) && k < |r|
    ensures IsTop(MostFirst(r, k), elements)
  {
    var top := MostFirst(r, k);
    forall i | 0 <= i < |top|
      ensures top[i].key in elements && top[i].count == Occurrences(elements, top[i].key)
    {
      RankingKey(r, elements, i);
    }
    forall i, j | 0 <= i < j < |top|
      ensures Keys(top)[i] != Keys(top)[j]
    {
      assert Keys(top)[i] == Keys(r)[i] && Keys(top)[j] == Keys(r)[j];
    }
    forall x | x in elements && x !in Keys(top)
      ensures Occurrences(elements, x) <= top[k].count
    {
      var i := RankingPosition(r, elements, x);
      if i <= k {
        ListedInMostFirst(r, k, i);
      }
    }
  }

  /** The key at a position up to `k` is among the keys `MostFirst` lists. */
  lemma ListedInMostFirst<K>(r: seq<Tally<K>>, k: nat, i: nat)
    requires i <= k < |r|
    ensures r[i].key in Keys(MostFirst(r, k))
  {
    assert Keys(MostFirst(r, k))[i] == r[i].key;
  }

  /** The key at one of the last `l + 1` positions is among the keys
      `LeastFirst` lists. */
  lemma ListedInLeastFirst<K>(r: seq<Tally<K>>, l: nat, i: nat)
    requires l < |r| && |r| - 1 - l <= i < |r|
    ensures r[i].key in Keys(LeastFirst(r, l))
  {
    assert Keys(LeastFirst(r, l))[|r| - 1 - i] == r[i].key;
  }

  /** The last `l + 1` pairs of a ranking, read backwards, are the bottom
      `l + 1` elements. */
  lemma BottomOfRanking<T>(r: seq<Tally<T>>, elements: seq<T>, l: nat)
    requires IsRanking(r, elements) && l < |r|
    ensures IsBottom(LeastFirst(r, l), elements)
  {
    var least := LeastFirst(r, l);
    var n := |r|;
    forall i | 0 <= i < |least|
      ensures least[i].key in elements && least[i].count == Occurrences(elements, least[i].key)
    {
      RankingKey(r, elements, n - 1 - i);
    }
    forall i, j | 0 <= i < j < |least|
      ensures Keys(least)[i] != Keys(least)[j]
    {
      assert Keys(least)[i] == Keys(r)[n - 1 - i] && Keys(least)[j] == Keys(r)[n - 1 - j];
    }
    forall i, j | 0 <= i < j < |least|
      ensures Precedes(least[i], least[j], false)
    {
      assert Precedes(r[n - 1 - j], r[n - 1 - i], true);
    }
    forall x | x in elements && x !in Keys(least)
      ensures Occurrences(elements, x) >= least[l].count
    {
      var i := RankingPosition(r, elements, x);
      if i >= n - 1 - l {
        ListedInLeastFirst(r, l, i);
      }
    }
  }

  /** The first `k + 1` pairs are a prefix. */
  lemma MostFirstPrefix<K>(r: seq<Tally<K>>, k: nat)
    requires k < |r|
    ensures MostFirst(r, k) == r[..k + 1]
  {
  }

  /** A prefix sums to no more than the whole list. */
  lemma {:induction false} TotalPrefix<K>(ts: seq<Tally<K>>, n: nat)
    requires n <= |ts|
    ensures Total(ts[..n]) <= Total(ts)
  {
    if n < |ts| {
      var init := ts[..|ts| - 1];
      TotalPrefix(init, n);
      assert init[..n] == ts[..n];
    } else {
      assert ts[..n] == ts;
    }
  }

  /** Pairs that each count at least one sum to at least their number. */
  lemma {:induction false} TotalAtLeast<K>(ts: seq<Tally<K>>)
    requires forall i :: 0 <= i < |ts| ==> ts[i].count >= 1
    ensures Total(ts) >= |ts|
  {
    if |ts| > 0 {
      TotalAtLeast(ts[..|ts| - 1]);
    }
  }

  /** The streams of the top `k + 1` elements of a ranking: at least one
      each, and no more than all of them. */
  lemma TopStreams<T>(elements: seq<T>, order: seq<T>, k: nat)
    requires Enumerates(order, elements) && k < |Elements(elements)|
    ensures k + 1 <= Total(MostFirst(Rank(elements, order), k)) <= |elements|
  {
    var r := Rank(elements, order);
    PermutedCountIsRanking(r, elements, order);
    MostFirstPrefix(r, k);
    TotalPrefix(r, k + 1);
    TotalAtLeast(MostFirst(r, k));
  }

  /** Lists with the same counts have the same total. */
  lemma {:induction false} TotalOfCounts<K>(a: seq<Tally<K>>, b: seq<Tally<K>>)
    requires Counts(a) == Counts(b)
    ensures Total(a) == Total(b)
  {
    if |a| > 0 {
      assert |b| == |Counts(b)| == |Counts(a)| == |a|;
      var n := |a| - 1;
      assert Counts(a[..n]) == Counts(b[..n]) by {
        forall i | 0 <= i < n
          ensures Counts(a[..n])[i] == Counts(b[..n])[i]
        {
          assert Counts(a)[i] == Counts(b)[i];
        }
      }
      TotalOfCounts(a[..n], b[..n]);
      assert Counts(a)[n] == Counts(b)[n];
    }
  }

  /** Lists with the same counts keep the same counts in their top rows. */
  lemma MostFirstCounts<K>(r1: seq<Tally<K>>, r2: seq<Tally<K>>, k: nat)
    requires Counts(r1) == Counts(r2) && k < |r1|
    ensures Counts(MostFirst(r1, k)) == Counts(MostFirst(r2, k))
  {
    assert |r2| == |Counts(r2)| == |Counts(r1)| == |r1|;
    forall i | 0 <= i <= k
      ensures Counts(MostFirst(r1, k))[i] == Counts(MostFirst(r2, k))[i]
    {
      assert Counts(r1)[i] == Counts(r2)[i];
    }
  }

  /** … and in their bottom rows. */
  lemma LeastFirstCounts<K>(r1: seq<Tally<K>>, r2: seq<Tally<K>>, l: nat)
    requires Counts(r1) == Counts(r2) && l < |r1|
    ensures Counts(LeastFirst(r1, l)) == Counts(LeastFirst(r2, l))
  {
    var n := |r1|;
    assert |r2| == |Counts(r2)| == |Counts(r1)| == n;
    forall j | 0 <= j <= l
      ensures Counts(LeastFirst(r1, l))[j] == Counts(LeastFirst(r2, l))[j]
    {
      assert Counts(r1)[n - 1 - j] == Counts(r2)[n - 1 - j];
    }
  }

  /** The top rows of two rankings of the same input have the same counts
      and the same total, whatever order the set iterated in. */
  lemma TopCountsIndependent<T>(elements: seq<T>, o1: seq<T>, o2: seq<T>, k: nat)
    requires Enumerates(o1, elements) && Enumerates(o2, elements)
    requires k < |Elements(elements)|
    ensures Counts(MostFirst(Rank(elements, o1), k)) == Counts(MostFirst(Rank(elements, o2), k))
    ensures Total(MostFirst(Rank(elements, o1), k)) == Total(MostFirst(Rank(elements, o2), k))
  {
    var r1 := Rank(elements, o1);
    var r2 := Rank(elements, o2);
    RankingCountsUnique(r1, r2, elements, o1, o2);
    MostFirstCounts(r1, r2, k);
    TotalOfCounts(MostFirst(r1, k), MostFirst(r2, k));
  }

  /** The same for the bottom rows. */
  lemma LeastCountsIndependent<T>(elements: seq<T>, o1: seq<T>, o2: seq<T>, l: nat)
    requires Enumerates(o1, elements) && Enumerates(o2, elements)
    requires l < |Elements(elements)|
    ensures Counts(LeastFirst(Rank(elements, o1), l)) == Counts(LeastFirst(Rank(elements, o2), l))
  {
    var r1 := Rank(elements, o1);
    var r2 := Rank(elements, o2);
    RankingCountsUnique(r1, r2, elements, o1, o2);
    LeastFirstCounts(r1, r2, l);
  }
}
