/** Occurrence counting: `count_individuals` of helper_functions.py.

    Python builds the result by iterating over `list(set(elements))`, whose
    order is unspecified. The model makes that order an explicit argument
    `order`, constrained only to enumerate the distinct elements once each
    (`Enumerates`); every property below holds whichever order is chosen. */
module Tallies {

  /** One `(element, count)` pair of the result. */
  datatype Tally<K> = Tally(key: K, count: nat)

  /** The set of elements of a sequence (Python's `set(xs)`). */
  function Elements<T>(s: seq<T>): set<T>
  {
    set x | x in s
  }

  predicate Distinct<T(==)>(s: seq<T>)
  {
    forall i, j :: 0 <= i < j < |s| ==> s[i] != s[j]
  }

  /** `order` lists every distinct element of `elements` exactly once: the
      contract of `list(set(elements))`. */
  predicate Enumerates<T(==)>(order: seq<T>, elements: seq<T>)
  {
    Distinct(order) && Elements(order) == Elements(elements)
  }

  /** `elements.count(x)`: how many positions of `elements` hold `x`. */
  function Occurrences<T(==)>(elements: seq<T>, x: T): (n: nat)
    ensures n == multiset(elements)[x]
    ensures n > 0 <==> x in elements
    ensures n <= |elements|
  {
    if |elements| == 0 then 0
    else
      assert elements == [elements[0]] + elements[1..];
      (if elements[0] == x then 1 else 0) + Occurrences(elements[1..], x)
  }

  /** One possible result of `list(set(elements))`: first occurrences, in order.
      It shows that an `order` meeting `Enumerates` exists for every input. */
  function FirstOccurrences<T(==)>(elements: seq<T>): (order: seq<T>)
    ensures Enumerates(order, elements)
  {
    if |elements| == 0 then []
    else
      var init := elements[..|elements| - 1];
      var last := elements[|elements| - 1];
      assert elements == init + [last];
      var prev := FirstOccurrences(init);
      assert Elements(elements) == Elements(init) + {last};
      if last in prev then prev
      else
        assert Elements(prev + [last]) == Elements(prev) + {last};
        prev + [last]
  }

  /** The keys of a list of pairs, in order. */
  function Keys<K>(ts: seq<Tally<K>>): (ks: seq<K>)
    ensures |ks| == |ts|
    ensures forall i :: 0 <= i < |ts| ==> ks[i] == ts[i].key
  {
    seq(|ts|, i requires 0 <= i < |ts| => ts[i].key)
  }

  /** The counts of a list of pairs, in order. */
  function Counts<K>(ts: seq<Tally<K>>): (cs: seq<nat>)
    ensures |cs| == |ts|
    ensures forall i :: 0 <= i < |ts| ==> cs[i] == ts[i].count
  {
    seq(|ts|, i requires 0 <= i < |ts| => ts[i].count)
  }

  /** Sum of the counts, accumulated front to back as the Python loops do. */
  function Total<K>(ts: seq<Tally<K>>): nat
  {
    if |ts| == 0 then 0 else Total(ts[..|ts| - 1]) + ts[|ts| - 1].count
  }

  /** Pairs `(k, elements.count(k))` for each `k` of `keys`, in that order:
      the loop body of `count_individuals` run over a given key list. */
  function TallyOver<T(==)>(elements: seq<T>, keys: seq<T>): seq<Tally<T>>
  {
    seq(|keys|, i requires 0 <= i < |keys| => Tally(keys[i], Occurrences(elements, keys[i])))
  }

  /** `count_individuals(elements)` when the set iterates in `order`. */
  function CountIndividuals<T(==)>(elements: seq<T>, order: seq<T>): (r: seq<Tally<T>>)
    requires Enumerates(order, elements)
    ensures forall i :: 0 <= i < |r| ==> r[i].count == Occurrences(elements, r[i].key)
    ensures forall i :: 0 <= i < |r| ==> r[i].count >= 1
    ensures Distinct(Keys(r))
    ensures Elements(Keys(r)) == Elements(elements)
    ensures |r| == |Elements(elements)|
    ensures Total(r) == |elements|
    ensures |elements| == 0 ==> r == []
  {
    var r := TallyOver(elements, order);
    assert Keys(r) == order;
    assert forall i :: 0 <= i < |order| ==> order[i] in Elements(elements);
    DistinctCardinality(order);
    TotalTallyOver(elements, order);
    CountInAll(elements, Elements(order));
    r
  }

  /** A pair belongs to the counted list exactly when its key is an element
      and its count is that element's number of occurrences. */
  lemma CountIndividualsMembers<T>(elements: seq<T>, order: seq<T>, t: Tally<T>)
    requires Enumerates(order, elements)
    ensures t in CountIndividuals(elements, order)
        <==> t.key in elements && t.count == Occurrences(elements, t.key)
  {
    var r := CountIndividuals(elements, order);
    if t.key in elements {
      assert t.key in Elements(order);
      var i :| 0 <= i < |order| && order[i] == t.key;
      assert r[i].key == t.key;
    }
    if t in r {
      var i :| 0 <= i < |r| && r[i] == t;
      assert Keys(r)[i] == t.key;
      assert t.key in Elements(Keys(r));
    }
  }

  /** Whichever order the set iterates in, the same pairs come out: two
      results of `count_individuals` are permutations of each other. */
  lemma CountIndividualsOrderIndependent<T>(elements: seq<T>, o1: seq<T>, o2: seq<T>)
    requires Enumerates(o1, elements) && Enumerates(o2, elements)
    ensures multiset(CountIndividuals(elements, o1)) == multiset(CountIndividuals(elements, o2))
  {
    var r1 := CountIndividuals(elements, o1);
    var r2 := CountIndividuals(elements, o2);
    DistinctKeysDistinct(r1);
    DistinctKeysDistinct(r2);
    forall t
      ensures multiset(r1)[t] == multiset(r2)[t]
    {
      CountIndividualsMembers(elements, o1, t);
      CountIndividualsMembers(elements, o2, t);
      DistinctMultiplicity(r1, t);
      DistinctMultiplicity(r2, t);
    }
    assert multiset(r1) == multiset(r2);
  }

  // ---------------------------------------------------------------------
  // Distinctness

  /** A sequence without repeats has as many elements as its set. */
  lemma {:induction false} DistinctCardinality<T>(s: seq<T>)
    requires Distinct(s)
    ensures |Elements(s)| == |s|
  {
    if |s| > 0 {
      var init := s[..|s| - 1];
      assert Distinct(init);
      DistinctCardinality(init);
      assert s == init + [s[|s| - 1]];
      assert s[|s| - 1] !in init;
      assert Elements(s) == Elements(init) + {s[|s| - 1]};
    }
  }

  /** In a sequence without repeats every value occurs at most once. */
  lemma {:induction false} DistinctMultiplicity<T>(s: seq<T>, x: T)
    requires Distinct(s)
    ensures multiset(s)[x] == if x in s then 1 else 0
  {
    if |s| > 0 {
      assert s == [s[0]] + s[1..];
      assert s[0] !in s[1..];
      DistinctMultiplicity(s[1..], x);
    }
  }

  /** Pairs with pairwise different keys are pairwise different. */
  lemma DistinctKeysDistinct<K>(ts: seq<Tally<K>>)
    requires Distinct(Keys(ts))
    ensures Distinct(ts)
  {
    forall i, j | 0 <= i < j < |ts|
      ensures ts[i] != ts[j]
    {
      assert Keys(ts)[i] != Keys(ts)[j];
    }
  }

  // ---------------------------------------------------------------------
  // The sum of the counts

  /** Number of positions of `elements` whose value lies in `within`. */
  function CountIn<T>(elements: seq<T>, within: set<T>): nat
  {
    if |elements| == 0 then 0
    else (if elements[0] in within then 1 else 0) + CountIn(elements[1..], within)
  }

  lemma {:induction false} CountInAdd<T>(elements: seq<T>, within: set<T>, k: T)
    requires k !in within
    ensures CountIn(elements, within + {k}) == CountIn(elements, within) + Occurrences(elements, k)
  {
    if |elements| > 0 {
      CountInAdd(elements[1..], within, k);
    }
  }

  lemma {:induction false} CountInAll<T>(elements: seq<T>, within: set<T>)
    requires Elements(elements) <= within
    ensures CountIn(elements, within) == |elements|
  {
    if |elements| > 0 {
      assert elements[0] in Elements(elements);
      assert Elements(elements[1..]) <= Elements(elements);
      CountInAll(elements[1..], within);
    }
  }

  /** Summing the occurrence counts over distinct keys counts the positions
      whose value is one of those keys. */
  lemma {:induction false} TotalTallyOver<T>(elements: seq<T>, keys: seq<T>)
    requires Distinct(keys)
    ensures Total(TallyOver(elements, keys)) == CountIn(elements, Elements(keys))
  {
    if |keys| == 0 {
      assert Elements(keys) == {};
      CountInNone(elements);
    } else {
      var init := keys[..|keys| - 1];
      var last := keys[|keys| - 1];
      assert keys == init + [last];
      assert TallyOver(elements, keys)[..|keys| - 1] == TallyOver(elements, init);
      assert Distinct(init);
      TotalTallyOver(elements, init);
      assert last !in Elements(init);
      assert Elements(keys) == Elements(init) + {last};
      CountInAdd(elements, Elements(init), last);
    }
  }

  lemma {:induction false} CountInNone<T>(elements: seq<T>)
    ensures CountIn(elements, {}) == 0
  {
    if |elements| > 0 {
      CountInNone(elements[1..]);
    }
  }
}
