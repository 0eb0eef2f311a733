/**
 * Sorting a group of test classes with a strategy's comparator.
 *
 * The source hands the group to a library sort whose code is not part of this
 * model. It is modelled here by an insertion sort, and nothing below relies on
 * more than its two promises: the result is ordered by the comparator and is
 * a permutation of the input. In particular no stability is assumed.
 */
module ClassSort {
  import opened SortAndAssign

  /** `xs` is in non-descending order for the comparator. */
  predicate SortedBy(sorter: Sorter, xs: seq<string>) {
    forall i, j | 0 <= i < j < |xs| :: Compare(sorter, xs[i], xs[j]) <= 0
  }

  /** "Compare(a, b) <= 0" is transitive and total. */
  lemma PrecedesTransitiveTotal(sorter: Sorter, a: string, b: string, c: string)
    ensures Compare(sorter, a, b) <= 0 && Compare(sorter, b, c) <= 0 ==> Compare(sorter, a, c) <= 0
    ensures Compare(sorter, a, b) <= 0 || Compare(sorter, b, a) <= 0
  {
  }

  /**
   * Inserts `x` into a sorted sequence before the first element it strictly
   * precedes, so it lands after every element it ties with.
   */
  function Insert(sorter: Sorter, x: string, xs: seq<string>): (r: seq<string>)
    requires SortedBy(sorter, xs)
    ensures SortedBy(sorter, r)
    ensures multiset(r) == multiset(xs) + multiset{x}
    decreases |xs|
  {
    if xs == [] then [x]
    else if Compare(sorter, x, xs[0]) < 0 then
      InsertFrontSorted(sorter, x, xs);
      [x] + xs
    else
      var rest := Insert(sorter, x, xs[1..]);
      assert xs == [xs[0]] + xs[1..];
      InsertBehindSorted(sorter, x, xs, rest);
      [xs[0]] + rest
  }

  /** Putting `x` in front keeps the order when `x` strictly precedes the head. */
  lemma InsertFrontSorted(sorter: Sorter, x: string, xs: seq<string>)
    requires SortedBy(sorter, xs) && xs != [] && Compare(sorter, x, xs[0]) < 0
    ensures SortedBy(sorter, [x] + xs)
  {
    forall j | 0 <= j < |xs|
      ensures Compare(sorter, x, xs[j]) <= 0
    {
      PrecedesTransitiveTotal(sorter, x, xs[0], xs[j]);
    }
  }

  /** Keeping the head in front keeps the order when `x` does not strictly precede the head. */
  lemma InsertBehindSorted(sorter: Sorter, x: string, xs: seq<string>, rest: seq<string>)
    requires SortedBy(sorter, xs) && xs != [] && Compare(sorter, x, xs[0]) >= 0
    requires SortedBy(sorter, rest) && multiset(rest) == multiset(xs[1..]) + multiset{x}
    ensures SortedBy(sorter, [xs[0]] + rest)
  {
    forall j | 0 <= j < |rest|
      ensures Compare(sorter, xs[0], rest[j]) <= 0
    {
      assert rest[j] in multiset(rest);
      if rest[j] != x {
        assert rest[j] in multiset(xs[1..]);
        var k :| 0 <= k < |xs[1..]| && xs[1..][k] == rest[j];
        assert xs[k + 1] == rest[j];
      }
    }
  }

  /** Insertion sort: sorts the prefix, then inserts the last element. */
  function Sort(sorter: Sorter, xs: seq<string>): (r: seq<string>)
    ensures SortedBy(sorter, r)
    ensures multiset(r) == multiset(xs)
    decreases |xs|
  {
    if xs == [] then []
    else
      assert xs == xs[..|xs| - 1] + [xs[|xs| - 1]];
      Insert(sorter, xs[|xs| - 1], Sort(sorter, xs[..|xs| - 1]))
  }

  /** Distinct elements of `xs` never compare equal. */
  predicate StrictOn(sorter: Sorter, xs: seq<string>) {
    forall i, j | 0 <= i < |xs| && 0 <= j < |xs| && xs[i] != xs[j] :: Compare(sorter, xs[i], xs[j]) != 0
  }

  /** Two sorted permutations of a strictly ordered group start with the same class. */
  lemma SortedPermutationsShareHead(sorter: Sorter, xs: seq<string>, ys: seq<string>)
    requires SortedBy(sorter, xs) && SortedBy(sorter, ys)
    requires multiset(xs) == multiset(ys)
    requires StrictOn(sorter, xs)
    requires xs != [] && ys != []
    ensures xs[0] == ys[0]
  {
    assert ys[0] in multiset(xs) && xs[0] in multiset(ys);
    var m :| 0 <= m < |xs| && xs[m] == ys[0];
    var k :| 0 <= k < |ys| && ys[k] == xs[0];
    assert Compare(sorter, xs[0], ys[0]) <= 0;
    assert Compare(sorter, ys[0], xs[0]) <= 0;
    assert Compare(sorter, xs[0], xs[m]) == 0;
  }

  /** Dropping the head keeps a sequence sorted and strictly ordered. */
  lemma TailKeepsOrder(sorter: Sorter, xs: seq<string>)
    requires xs != []
    ensures SortedBy(sorter, xs) ==> SortedBy(sorter, xs[1..])
    ensures StrictOn(sorter, xs) ==> StrictOn(sorter, xs[1..])
  {
    var xt := xs[1..];
    forall i | 0 <= i < |xt|
      ensures xt[i] == xs[i + 1]
    {
    }
  }

  /** Removing equal heads from two permutations leaves permutations. */
  lemma TailsArePermutations(xs: seq<string>, ys: seq<string>)
    requires xs != [] && ys != [] && xs[0] == ys[0]
    requires multiset(xs) == multiset(ys)
    ensures multiset(xs[1..]) == multiset(ys[1..])
  {
    var xt, yt := xs[1..], ys[1..];
    assert xs == [xs[0]] + xt && ys == [ys[0]] + yt;
    assert multiset(xs) == multiset{xs[0]} + multiset(xt);
    assert multiset(ys) == multiset{xs[0]} + multiset(yt);
    forall z
      ensures multiset(xt)[z] == multiset(yt)[z]
    {
      assert multiset(xs)[z] == multiset(ys)[z];
    }
  }

  /**
   * When no two distinct classes compare equal, there is only one sorted
   * permutation, so every correct sort, stable or not, returns the same order.
   */
  lemma {:induction false} SortedPermutationUnique(sorter: Sorter, xs: seq<string>, ys: seq<string>)
    requires SortedBy(sorter, xs) && SortedBy(sorter, ys)
    requires multiset(xs) == multiset(ys)
    requires StrictOn(sorter, xs)
    ensures xs == ys
    decreases |xs|
  {
    assert |xs| == |multiset(xs)| == |multiset(ys)| == |ys|;
    if xs != [] {
      SortedPermutationsShareHead(sorter, xs, ys);
      TailKeepsOrder(sorter, xs);
      TailKeepsOrder(sorter, ys);
      TailsArePermutations(xs, ys);
      SortedPermutationUnique(sorter, xs[1..], ys[1..]);
      assert xs == [xs[0]] + xs[1..] && ys == [ys[0]] + ys[1..];
    }
  }
}
