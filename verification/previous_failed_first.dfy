/**
 * The processor that forwards previously failed test classes first.
 *
 * It buffers submitted classes in two insertion-ordered, duplicate-free
 * buffers, split by membership in the set of classes that failed in the
 * previous run. On `stop` it forwards the failed group, then the rest, each
 * sorted by the strategy's comparator when there is one, and then stops its
 * delegate. The delegate is modelled only by the calls it receives.
 *
 * A class is identified by its name; the buffers dedupe by that name.
 */
module PreviousFailedFirst {
  import opened Outcome
  import opened SortAndAssign
  import opened ClassSort

  /** A call this processor makes on its delegate. */
  datatype Call =
    | StartDelegate
    | ProcessDelegate(testClass: string)
    | StopDelegate
    | StopNowDelegate

  /** The processor's state: the failed set, the comparator fixed at construction and the two buffers. */
  datatype Prioritizer = Prioritizer(
    previousFailed: set<string>,
    sorter: Option<Sorter>,
    prioritized: seq<string>,
    other: seq<string>)

  /** No class occurs twice. */
  predicate Distinct(xs: seq<string>) {
    forall i, j | 0 <= i < j < |xs| :: xs[i] != xs[j]
  }

  /** Both buffers are duplicate-free and each holds only classes of its side of the split. */
  predicate Inv(p: Prioritizer) {
    && Distinct(p.prioritized)
    && Distinct(p.other)
    && (forall i | 0 <= i < |p.prioritized| :: p.prioritized[i] in p.previousFailed)
    && (forall i | 0 <= i < |p.other| :: p.other[i] !in p.previousFailed)
  }

  /** The constructor: empty buffers, and a comparator exactly when the strategy has one. */
  function Create(previousFailed: set<string>, strategy: Strategy): (p: Prioritizer)
    ensures Inv(p)
    ensures p.previousFailed == previousFailed
    ensures p.prioritized == [] && p.other == []
    ensures p.sorter.None? <==> IsFallBack(strategy)
    ensures p.sorter.Some? ==> p.sorter.value == ClassByDuration(strategy.durations)
  {
    Prioritizer(previousFailed, GetSorter(strategy), [], [])
  }

  /** `LinkedHashSet.add`: appends an absent element, leaves the set alone otherwise. */
  function LinkedAdd(xs: seq<string>, x: string): (r: seq<string>)
    ensures Distinct(xs) ==> Distinct(r)
    ensures forall y :: y in r <==> y in xs || y == x
    ensures |xs| <= |r| <= |xs| + 1 && r[..|xs|] == xs
    ensures x in xs <==> r == xs
  {
    if x in xs then xs else xs + [x]
  }

  /** `processTestClass`: add the class to the buffer its failed-set membership selects. */
  function ProcessTestClass(p: Prioritizer, testClass: string): (r: Prioritizer)
    ensures Inv(p) ==> Inv(r)
    ensures r.previousFailed == p.previousFailed && r.sorter == p.sorter
    ensures testClass in p.previousFailed ==> r.other == p.other && testClass in r.prioritized
    ensures testClass !in p.previousFailed ==> r.prioritized == p.prioritized && testClass in r.other
    ensures forall c :: c in r.prioritized <==> c in p.prioritized || (c == testClass && c in p.previousFailed)
    ensures forall c :: c in r.other <==> c in p.other || (c == testClass && c !in p.previousFailed)
    ensures |r.prioritized| >= |p.prioritized| && r.prioritized[..|p.prioritized|] == p.prioritized
    ensures |r.other| >= |p.other| && r.other[..|p.other|] == p.other
  {
    if testClass in p.previousFailed then
      p.(prioritized := LinkedAdd(p.prioritized, testClass))
    else
      p.(other := LinkedAdd(p.other, testClass))
  }

  /** Submitting a class that is already buffered changes nothing. */
  lemma ResubmitIsNoOp(p: Prioritizer, testClass: string)
    requires Inv(p)
    requires testClass in p.prioritized || testClass in p.other
    ensures ProcessTestClass(p, testClass) == p
  {
    if testClass in p.prioritized {
      var i :| 0 <= i < |p.prioritized| && p.prioritized[i] == testClass;
    } else {
      var i :| 0 <= i < |p.other| && p.other[i] == testClass;
    }
  }

  /** Submitting the same class twice in a row is submitting it once. */
  lemma ProcessTestClassIdempotent(p: Prioritizer, testClass: string)
    ensures ProcessTestClass(ProcessTestClass(p, testClass), testClass) == ProcessTestClass(p, testClass)
  {
  }

  /** Submits the classes in order, as the discovery collaborator does. */
  function SubmitAll(p: Prioritizer, classes: seq<string>): (r: Prioritizer)
    ensures r.previousFailed == p.previousFailed && r.sorter == p.sorter
    ensures Inv(p) ==> Inv(r)
    decreases |classes|
  {
    if classes == [] then p
    else ProcessTestClass(SubmitAll(p, classes[..|classes| - 1]), classes[|classes| - 1])
  }

  /** `sorting`: the group as buffered when there is no comparator or it is empty, sorted otherwise. */
  function Sorting(sorter: Option<Sorter>, classes: seq<string>): (r: seq<string>)
    ensures multiset(r) == multiset(classes) && |r| == |classes|
    ensures sorter.None? || classes == [] ==> r == classes
    ensures sorter.Some? ==> SortedBy(sorter.value, r)
  {
    if sorter.Some? && classes != [] then
      var sorted := Sort(sorter.value, classes);
      assert |sorted| == |multiset(sorted)| == |multiset(classes)| == |classes|;
      sorted
    else classes
  }

  /** One `processTestClass` call on the delegate per class, in order. */
  function ForwardAll(classes: seq<string>): (calls: seq<Call>)
    ensures |calls| == |classes|
    ensures forall i | 0 <= i < |classes| :: calls[i] == ProcessDelegate(classes[i])
  {
    seq(|classes|, i requires 0 <= i < |classes| => ProcessDelegate(classes[i]))
  }

  /** The classes a delegate received, in the order it received them. */
  function Forwarded(calls: seq<Call>): (classes: seq<string>)
    ensures |classes| <= |calls|
    decreases |calls|
  {
    if calls == [] then []
    else if calls[0].ProcessDelegate? then [calls[0].testClass] + Forwarded(calls[1..])
    else Forwarded(calls[1..])
  }

  /** `stop`: forward the sorted failed group, then the sorted other group, then stop the delegate. */
  function Stop(p: Prioritizer): (calls: seq<Call>)
    ensures |calls| == |p.prioritized| + |p.other| + 1
    ensures calls[|calls| - 1] == StopDelegate
    ensures forall i | 0 <= i < |calls| - 1 :: calls[i].ProcessDelegate?
  {
    ForwardAll(Sorting(p.sorter, p.prioritized) + Sorting(p.sorter, p.other)) + [StopDelegate]
  }

  /** `stopNow`: only the delegate's `stopNow`; no buffered class is forwarded. */
  function StopNow(p: Prioritizer): (calls: seq<Call>)
    ensures Forwarded(calls) == []
    ensures StopNowDelegate in calls && StopDelegate !in calls
    ensures calls == [StopNowDelegate]
  {
    [StopNowDelegate]
  }

  /** `startProcessing`: start the delegate, then let the strategy reset its state. */
  function StartProcessing(strategy: Strategy): (r: (seq<Call>, Strategy))
    requires Valid(strategy)
    ensures r.0 == [StartDelegate] && Forwarded(r.0) == []
    ensures Valid(r.1) && Count(r.1) == Count(strategy) && GetSorter(r.1) == GetSorter(strategy)
    ensures IsFallBack(r.1) ==> r.1.rr.last == -1
    ensures !IsFallBack(strategy) ==> r.1 == strategy
  {
    ([StartDelegate], SortAndAssign.StartProcessing(strategy))
  }

  /** The delegate of `stop` receives exactly the forwarded classes, then the stop call. */
  lemma {:induction false} ForwardedForwardAll(classes: seq<string>, tail: seq<Call>)
    requires forall i | 0 <= i < |tail| :: !tail[i].ProcessDelegate?
    ensures Forwarded(ForwardAll(classes) + tail) == classes
    decreases |classes|
  {
    if classes == [] {
      ForwardedNone(tail);
      assert ForwardAll(classes) + tail == tail;
    } else {
      assert (ForwardAll(classes) + tail)[1..] == ForwardAll(classes[1..]) + tail;
      ForwardedForwardAll(classes[1..], tail);
    }
  }

  /** Calls other than `processTestClass` forward nothing. */
  lemma {:induction false} ForwardedNone(calls: seq<Call>)
    requires forall i | 0 <= i < |calls| :: !calls[i].ProcessDelegate?
    ensures Forwarded(calls) == []
    decreases |calls|
  {
    if calls != [] {
      ForwardedNone(calls[1..]);
    }
  }

  /** The order in which `stop` forwards: the sorted failed group followed by the sorted other group. */
  lemma StopForwardsGroups(p: Prioritizer)
    ensures Forwarded(Stop(p)) == Sorting(p.sorter, p.prioritized) + Sorting(p.sorter, p.other)
  {
    ForwardedForwardAll(Sorting(p.sorter, p.prioritized) + Sorting(p.sorter, p.other), [StopDelegate]);
  }

  /**
   * Within each group the delegate receives the buffer's insertion order when
   * there is no comparator, and otherwise a permutation of the group that is
   * sorted by the comparator.
   */
  lemma StopSortsEachGroup(p: Prioritizer)
    ensures |Forwarded(Stop(p))| == |p.prioritized| + |p.other|
    ensures p.sorter.None? ==> Forwarded(Stop(p)) == p.prioritized + p.other
    ensures multiset(Forwarded(Stop(p))[..|p.prioritized|]) == multiset(p.prioritized)
    ensures multiset(Forwarded(Stop(p))[|p.prioritized|..]) == multiset(p.other)
    ensures p.sorter.Some? ==>
      && SortedBy(p.sorter.value, Forwarded(Stop(p))[..|p.prioritized|])
      && SortedBy(p.sorter.value, Forwarded(Stop(p))[|p.prioritized|..])
  {
    StopForwardsGroups(p);
    var a := Sorting(p.sorter, p.prioritized);
    var b := Sorting(p.sorter, p.other);
    assert (a + b)[..|a|] == a;
    assert (a + b)[|a|..] == b;
  }

  /** Concatenating a group of failed classes and a group of other classes puts every failed one first. */
  lemma ConcatPutsFailedFirst(a: seq<string>, b: seq<string>, previousFailed: set<string>)
    requires forall i | 0 <= i < |a| :: a[i] in previousFailed
    requires forall i | 0 <= i < |b| :: b[i] !in previousFailed
    ensures forall i, j | 0 <= i < |a + b| && 0 <= j < |a + b| ::
      (a + b)[i] in previousFailed && (a + b)[j] !in previousFailed ==> i < j
  {
    var fw := a + b;
    forall i | |a| <= i < |fw|
      ensures fw[i] !in previousFailed
    {
      assert fw[i] == b[i - |a|];
    }
  }

  /** A permutation of a group keeps every member's side of the split. */
  lemma PermutationKeepsSide(xs: seq<string>, ys: seq<string>, previousFailed: set<string>, failed: bool)
    requires multiset(xs) == multiset(ys)
    requires forall i | 0 <= i < |xs| :: (xs[i] in previousFailed) == failed
    ensures forall i | 0 <= i < |ys| :: (ys[i] in previousFailed) == failed
  {
    forall i | 0 <= i < |ys|
      ensures (ys[i] in previousFailed) == failed
    {
      assert ys[i] in multiset(xs);
    }
  }

  /** Every previously failed class reaches the delegate strictly before every other class. */
  lemma StopForwardsPrioritizedFirst(p: Prioritizer)
    requires Inv(p)
    ensures forall i, j | 0 <= i < |Forwarded(Stop(p))| && 0 <= j < |Forwarded(Stop(p))| ::
      Forwarded(Stop(p))[i] in p.previousFailed && Forwarded(Stop(p))[j] !in p.previousFailed ==> i < j
  {
    StopForwardsGroups(p);
    var a := Sorting(p.sorter, p.prioritized);
    var b := Sorting(p.sorter, p.other);
    PermutationKeepsSide(p.prioritized, a, p.previousFailed, true);
    PermutationKeepsSide(p.other, b, p.previousFailed, false);
    ConcatPutsFailedFirst(a, b, p.previousFailed);
  }

  /** A duplicate-free sequence holds each element at most once. */
  lemma {:induction false} DistinctMultiplicity(xs: seq<string>, x: string)
    requires Distinct(xs)
    ensures multiset(xs)[x] <= 1
    decreases |xs|
  {
    if xs != [] {
      assert xs == [xs[0]] + xs[1..];
      DistinctMultiplicity(xs[1..], x);
      assert xs[0] !in xs[1..];
    }
  }

  /** Two equal elements at distinct positions give multiplicity at least two. */
  lemma DuplicateMultiplicity(ys: seq<string>, i: int, j: int)
    requires 0 <= i < j < |ys|
    ensures ys[i] == ys[j] ==> multiset(ys)[ys[i]] >= 2
  {
    assert ys == ys[..j] + [ys[j]] + ys[j + 1..];
    assert ys[..j][i] == ys[i];
  }

  /** A permutation of a duplicate-free sequence is duplicate-free. */
  lemma PermutationKeepsDistinct(xs: seq<string>, ys: seq<string>)
    requires Distinct(xs) && multiset(xs) == multiset(ys)
    ensures Distinct(ys)
  {
    forall i, j | 0 <= i < j < |ys|
      ensures ys[i] != ys[j]
    {
      DuplicateMultiplicity(ys, i, j);
      DistinctMultiplicity(xs, ys[i]);
    }
  }

  /**
   * `stop` forwards a permutation of the buffered classes: each buffered
   * class exactly once, nothing else, and the delegate's stop after them.
   */
  lemma StopForwardsEachBufferedClassOnce(p: Prioritizer)
    requires Inv(p)
    ensures multiset(Forwarded(Stop(p))) == multiset(p.prioritized) + multiset(p.other)
    ensures Distinct(Forwarded(Stop(p)))
    ensures forall c :: c in Forwarded(Stop(p)) <==> c in p.prioritized || c in p.other
    ensures Stop(p)[|Stop(p)| - 1] == StopDelegate
  {
    StopForwardsGroups(p);
    var both := p.prioritized + p.other;
    var fw := Forwarded(Stop(p));
    assert multiset(both) == multiset(p.prioritized) + multiset(p.other);
    forall i, j | 0 <= i < j < |both|
      ensures both[i] != both[j]
    {
      if i < |p.prioritized| <= j {
        assert both[i] in p.previousFailed;
        assert both[j] !in p.previousFailed;
      } else if j < |p.prioritized| {
        assert both[i] == p.prioritized[i] && both[j] == p.prioritized[j];
      } else {
        assert both[i] == p.other[i - |p.prioritized|] && both[j] == p.other[j - |p.prioritized|];
      }
    }
    PermutationKeepsDistinct(both, fw);
    forall c
      ensures c in fw <==> c in p.prioritized || c in p.other
    {
      assert c in fw <==> c in multiset(fw);
      assert c in both <==> c in multiset(both);
    }
  }

  /** Index of the first occurrence of `x`: where the class was first submitted. */
  function FirstIndex(xs: seq<string>, x: string): (r: nat)
    requires x in xs
    ensures r < |xs| && xs[r] == x
    ensures forall k | 0 <= k < r :: xs[k] != x
    decreases |xs|
  {
    if xs[0] == x then 0 else 1 + FirstIndex(xs[1..], x)
  }

  /** Any position holding the first occurrence is `FirstIndex`. */
  lemma {:induction false} FirstIndexIs(xs: seq<string>, x: string, r: nat)
    requires r < |xs| && xs[r] == x
    requires forall k | 0 <= k < r :: xs[k] != x
    ensures FirstIndex(xs, x) == r
    decreases r
  {
    if r > 0 {
      FirstIndexIs(xs[1..], x, r - 1);
    }
  }

  /** `buffer` lists its classes in the order they were first submitted in `classes`. */
  predicate InSubmissionOrder(buffer: seq<string>, classes: seq<string>) {
    && (forall i | 0 <= i < |buffer| :: buffer[i] in classes)
    && (forall i, j | 0 <= i < j < |buffer| :: FirstIndex(classes, buffer[i]) < FirstIndex(classes, buffer[j]))
  }

  /** Extending the submission history keeps the first positions of classes already submitted. */
  lemma InSubmissionOrderExtends(buffer: seq<string>, classes: seq<string>, c: string)
    requires InSubmissionOrder(buffer, classes)
    ensures InSubmissionOrder(buffer, classes + [c])
  {
    forall i | 0 <= i < |buffer|
      ensures FirstIndex(classes + [c], buffer[i]) == FirstIndex(classes, buffer[i])
    {
      FirstIndexIs(classes + [c], buffer[i], FirstIndex(classes, buffer[i]));
    }
  }

  /** A class submitted for the first time is first submitted after every buffered one. */
  lemma InSubmissionOrderAppend(buffer: seq<string>, classes: seq<string>, c: string)
    requires InSubmissionOrder(buffer, classes) && c !in classes
    ensures InSubmissionOrder(buffer + [c], classes + [c])
  {
    InSubmissionOrderExtends(buffer, classes, c);
    FirstIndexIs(classes + [c], c, |classes|);
    forall i | 0 <= i < |buffer|
      ensures FirstIndex(classes + [c], buffer[i]) < |classes|
    {
      FirstIndexIs(classes + [c], buffer[i], FirstIndex(classes, buffer[i]));
    }
    var nb := buffer + [c];
    forall i, j | 0 <= i < j < |nb|
      ensures FirstIndex(classes + [c], nb[i]) < FirstIndex(classes + [c], nb[j])
    {
      if j < |buffer| {
        assert nb[i] == buffer[i] && nb[j] == buffer[j];
      } else {
        assert nb[i] == buffer[i] && nb[j] == c;
      }
    }
  }

  /**
   * Submitting `classes` to a fresh processor partitions them by the failed
   * set: each buffer holds exactly the submitted classes of its side, once
   * each, in the order of their first submission.
   */
  lemma {:induction false} SubmitAllPartitions(previousFailed: set<string>, sorter: Option<Sorter>, classes: seq<string>)
    ensures var p := SubmitAll(Prioritizer(previousFailed, sorter, [], []), classes);
      && Inv(p)
      && (forall c :: c in p.prioritized <==> c in classes && c in previousFailed)
      && (forall c :: c in p.other <==> c in classes && c !in previousFailed)
      && InSubmissionOrder(p.prioritized, classes)
      && InSubmissionOrder(p.other, classes)
    decreases |classes|
  {
    var p0 := Prioritizer(previousFailed, sorter, [], []);
    if classes != [] {
      var prefix := classes[..|classes| - 1];
      var c := classes[|classes| - 1];
      assert classes == prefix + [c];
      SubmitAllPartitions(previousFailed, sorter, prefix);
      var q := SubmitAll(p0, prefix);
      var p := SubmitAll(p0, classes);
      assert p == ProcessTestClass(q, c);
      if c in prefix {
        ResubmitIsNoOp(q, c);
        InSubmissionOrderExtends(q.prioritized, prefix, c);
        InSubmissionOrderExtends(q.other, prefix, c);
      } else if c in previousFailed {
        assert p.prioritized == q.prioritized + [c];
        InSubmissionOrderAppend(q.prioritized, prefix, c);
        InSubmissionOrderExtends(q.other, prefix, c);
      } else {
        assert p.other == q.other + [c];
        InSubmissionOrderExtends(q.prioritized, prefix, c);
        InSubmissionOrderAppend(q.other, prefix, c);
      }
    }
  }

  /**
   * End to end: after submitting `classes` to a fresh processor, `stop`
   * forwards every distinct submitted class exactly once, previously failed
   * ones strictly first, and then stops the delegate.
   */
  lemma DrainForwardsEverySubmittedClassOnce(previousFailed: set<string>, strategy: Strategy, classes: seq<string>)
    ensures var fw := Forwarded(Stop(SubmitAll(Create(previousFailed, strategy), classes)));
      && Distinct(fw)
      && (forall c :: c in fw <==> c in classes)
      && (forall i, j | 0 <= i < |fw| && 0 <= j < |fw| :: fw[i] in previousFailed && fw[j] !in previousFailed ==> i < j)
  {
    var p := SubmitAll(Create(previousFailed, strategy), classes);
    SubmitAllPartitions(previousFailed, GetSorter(strategy), classes);
    StopForwardsEachBufferedClassOnce(p);
    StopForwardsPrioritizedFirst(p);
  }
}
