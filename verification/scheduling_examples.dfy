/**
 * Worked scheduling examples: concrete inputs, and the exact slot sequence and
 * sort order the general definitions give them.
 */
module SchedulingExamples {
  import opened JavaNum
  import opened Outcome
  import opened SortAndAssign
  import opened ClassSort

  /** Duration estimates for three known classes; any other class is unknown. */
  const DURATIONS: map<string, int> := map["TestClassThree" := 3, "TestClassTwo" := 2, "TestClassOne" := 1]

  /**
   * Two slots; unknown classes A and B interleaved with the known ones. The
   * unknowns take round-robin slots 0 and 1, Three (3) goes to slot 0, then
   * Two (2) and One (1) both go to the lighter slot 1, ending with loads [3, 3].
   */
  lemma GreedyAssignmentExample()
    ensures MaxProcessorsUsed(CreateSortByDurations(DURATIONS), 2).Ok?
    ensures var s := MaxProcessorsUsed(CreateSortByDurations(DURATIONS), 2).value;
      var r := AssignAll(s, ["A", "TestClassThree", "B", "TestClassTwo", "TestClassOne"]);
      && r.Ok?
      && r.value.0 == [0, 0, 1, 1, 1]
      && r.value.1.loads == Some([3, 3])
  {
    assert DurationsValid(DURATIONS);
    assert seq(2, _ => 0) == [0, 0];
    var s0 := MaxProcessorsUsed(CreateSortByDurations(DURATIONS), 2).value;
    assert s0 == DurationSorted(2, DURATIONS, RoundRobin(2, -1), Some([0, 0]));
    var s1 := DurationSorted(2, DURATIONS, RoundRobin(2, 0), Some([0, 0]));
    var s2 := DurationSorted(2, DURATIONS, RoundRobin(2, 0), Some([3, 0]));
    var s3 := DurationSorted(2, DURATIONS, RoundRobin(2, 1), Some([3, 0]));
    var s4 := DurationSorted(2, DURATIONS, RoundRobin(2, 1), Some([3, 2]));
    var s5 := DurationSorted(2, DURATIONS, RoundRobin(2, 1), Some([3, 3]));
    assert Assign(s0, "A") == Ok((0, s1));
    assert LeastLoaded([0, 0], 2) == 0;
    assert AddLong(0, 3) == 3 && [0, 0][0 := 3] == [3, 0];
    assert Assign(s1, "TestClassThree") == Ok((0, s2));
    assert Assign(s2, "B") == Ok((1, s3));
    assert LeastLoaded([3, 0], 2) == 1;
    assert AddLong(0, 2) == 2 && [3, 0][1 := 2] == [3, 2];
    assert Assign(s3, "TestClassTwo") == Ok((1, s4));
    assert LeastLoaded([3, 2], 2) == 1;
    assert AddLong(2, 1) == 3 && [3, 2][1 := 3] == [3, 3];
    assert Assign(s4, "TestClassOne") == Ok((1, s5));
    AssignAllStep(s4, ["TestClassOne"]);
    AssignAllStep(s3, ["TestClassTwo", "TestClassOne"]);
    AssignAllStep(s2, ["B", "TestClassTwo", "TestClassOne"]);
    AssignAllStep(s1, ["TestClassThree", "B", "TestClassTwo", "TestClassOne"]);
    AssignAllStep(s0, ["A", "TestClassThree", "B", "TestClassTwo", "TestClassOne"]);
  }

  /**
   * Lowering the processor count keeps the fallback cursor: after four unknown
   * classes on four slots the cursor sits at 3, and `maxProcessorsUsed(2)`
   * leaves it there, past the new count. The next unknown class still gets
   * `(3 + 1) mod 2`, slot 0.
   */
  lemma LoweredCountWrapsFallBack()
    ensures var s := DurationSorted(4, DURATIONS, RoundRobin(4, 3), Some([0, 0, 0, 0]));
      && MaxProcessorsUsed(s, 2).Ok?
      && var t := MaxProcessorsUsed(s, 2).value;
      && t.fallBack == RoundRobin(2, 3)
      && Assign(t, "A") == Ok((0, t.(fallBack := RoundRobin(2, 0))))
  {
    assert DurationsValid(DURATIONS);
    var s := DurationSorted(4, DURATIONS, RoundRobin(4, 3), Some([0, 0, 0, 0]));
    assert seq(2, _ => 0) == [0, 0];
    assert MaxProcessorsUsed(s, 2) == Ok(DurationSorted(2, DURATIONS, RoundRobin(2, 3), Some([0, 0])));
    assert Wrapped(4, 2) == 0 by {
      assert Wrapped(4, 2) == Wrapped(2, 2) == Wrapped(0, 2);
    }
  }

  /** One unfolding of `AssignAll` on a successful first assignment. */
  lemma AssignAllStep(s: Strategy, classes: seq<string>)
    requires Valid(s) && classes != [] && Assign(s, classes[0]).Ok?
    requires AssignAll(Assign(s, classes[0]).value.1, classes[1..]).Ok?
    ensures AssignAll(s, classes) == Ok(([Assign(s, classes[0]).value.0]
      + AssignAll(Assign(s, classes[0]).value.1, classes[1..]).value.0,
      AssignAll(Assign(s, classes[0]).value.1, classes[1..]).value.1))
  {
  }

  /** The order the comparator fixes for an unknown class and the three known ones. */
  const EXPECTED_ORDER: seq<string> := ["Unknown", "TestClassThree", "TestClassTwo", "TestClassOne"]

  /** That order is non-descending for the comparator. */
  lemma ExpectedOrderIsSorted()
    ensures SortedBy(ClassByDuration(DURATIONS), EXPECTED_ORDER)
  {
    var sorter := ClassByDuration(DURATIONS);
    assert "Unknown" !in DURATIONS;
    forall i, j | 0 <= i < j < 4
      ensures Compare(sorter, EXPECTED_ORDER[i], EXPECTED_ORDER[j]) <= 0
    {
      if i == 0 {
        assert EXPECTED_ORDER[j] in DURATIONS;
      }
    }
  }

  /** No two of those classes compare equal. */
  lemma ExpectedOrderIsStrict()
    ensures StrictOn(ClassByDuration(DURATIONS), EXPECTED_ORDER)
  {
    var sorter := ClassByDuration(DURATIONS);
    assert "Unknown" !in DURATIONS;
    forall i, j | 0 <= i < 4 && 0 <= j < 4 && EXPECTED_ORDER[i] != EXPECTED_ORDER[j]
      ensures Compare(sorter, EXPECTED_ORDER[i], EXPECTED_ORDER[j]) != 0
    {
      assert i != j;
      if i == 0 || j == 0 {
        assert EXPECTED_ORDER[i] in DURATIONS || EXPECTED_ORDER[j] in DURATIONS;
      } else {
        assert DURATIONS[EXPECTED_ORDER[i]] != DURATIONS[EXPECTED_ORDER[j]];
      }
    }
  }

  /**
   * Sorting an unknown class together with Three, Two and One: whatever
   * correct sort is used, the unknown class comes first, then the known ones
   * by descending duration.
   */
  lemma ComparatorOrderExample(sorted: seq<string>)
    requires SortedBy(ClassByDuration(DURATIONS), sorted)
    requires multiset(sorted) == multiset(["TestClassOne", "Unknown", "TestClassThree", "TestClassTwo"])
    ensures sorted == EXPECTED_ORDER
  {
    assert multiset(EXPECTED_ORDER) == multiset(["TestClassOne", "Unknown", "TestClassThree", "TestClassTwo"]);
    ExpectedOrderIsSorted();
    ExpectedOrderIsStrict();
    SortedPermutationUnique(ClassByDuration(DURATIONS), EXPECTED_ORDER, sorted);
  }
}
