# Test-class scheduling in Gradle's JVM test executer

This project models, in Dafny, how Gradle's test executer orders and distributes
test classes over parallel test forks:

- the two well-known **sort-and-assign strategies**: an unsorted round-robin
  cursor, and a duration-sorted strategy that puts each class with a known
  positive duration estimate on the least-loaded fork and sends every other
  class to an embedded round-robin; plus the duration comparator
  (`sort_and_assign.dfy`, module `SortAndAssign`);
- the **previous-failed-first processor**: it buffers submitted classes in two
  insertion-ordered, duplicate-free groups split by the previous run's failures.
  On `stop` it forwards the failed group, then the others, each sorted by the
  strategy's comparator when one exists (`previous_failed_first.dfy`, module
  `PreviousFailedFirst`). Sorting a group is modelled in `class_sort.dfy`
  (module `ClassSort`);
- the **executer's decisions** when it builds the processor chain: fork count,
  class stealing, strategy fallback and the `stopNow` guard
  (`test_executer.dfy`, module `TestExecuter`).

Java objects become immutable datatypes, and every mutating method becomes a
pure function that returns the new state. The delegate processor is modelled
only by the calls it receives (`PreviousFailedFirst.Call`). A Java exception
becomes an `Outcome.Result` error. The exceptions modelled are a null load array,
an index past the end of the load array, and a negative array size
(`outcome.dfy`). Java `int`/`long` ranges and the wrap-around of the `long`
load sums are explicit (`java_num.dfy`). `scheduling_examples.dfy` derives two
concrete schedules from the general definitions.

Three behaviours of the code are easy to misread; the model follows the code:

- The duration strategy does not override `startProcessing`. Its loads and its
  fallback cursor are therefore not reset at the start of a run. Only round-robin
  rewinds (`SortAndAssign.StartProcessing`).
- The comparator treats a present duration as known even when it is zero or
  negative. `assign` treats such a duration as unknown.
- The load array is sized by the raw processor count, while `count` is
  clamped to at least 1. So `maxProcessorsUsed(0)` followed by the assignment
  of a class with a known duration throws. `SortAndAssign.Assign` returns
  `Err(ArrayIndexOutOfBounds)` for it. Before `maxProcessorsUsed` has run, the
  same assignment returns `Err(NullPointer)`.

## Model

| member | source | states |
|---|---|---|
| SortAndAssign.CreateUnsortedRoundRobin | subprojects/testing-base/src/main/java/org/gradle/api/tasks/testing/TestClassSortAndAssignStrategy.java:123-129 | the round-robin factory yields a valid fallback strategy with count 1 and the cursor before slot 0 |
| SortAndAssign.CreateSortByDurations | subprojects/testing-base/src/main/java/org/gradle/api/tasks/testing/TestClassSortAndAssignStrategy.java:138-145 | the duration factory yields a non-fallback strategy over the given estimates, count 1, a fresh fallback and no load array yet |
| SortAndAssign.IsFallBack | subprojects/testing-base/src/main/java/org/gradle/api/tasks/testing/TestClassSortAndAssignStrategy.java:104-107 | true exactly for the round-robin strategy |
| SortAndAssign.GetSorter | subprojects/testing-base/src/main/java/org/gradle/api/tasks/testing/TestClassSortAndAssignStrategy.java:186-189 | a comparator exists exactly when the strategy is not round-robin, and it reads the strategy's estimates |
| SortAndAssign.RoundRobinMaxProcessorsUsed | subprojects/testing-base/src/main/java/org/gradle/api/tasks/testing/TestClassSortAndAssignStrategy.java:60-62 | the count becomes max(n, 1), so it is always at least 1; the cursor is untouched |
| SortAndAssign.MaxProcessorsUsed | subprojects/testing-base/src/main/java/org/gradle/api/tasks/testing/TestClassSortAndAssignStrategy.java:179-184 | the count becomes max(n, 1) for both variants; the duration strategy propagates n to its fallback, keeps the fallback cursor and gets exactly n zero loads; a negative n fails with NegativeArraySize for that variant only |
| SortAndAssign.StartProcessing | subprojects/testing-base/src/main/java/org/gradle/api/tasks/testing/TestClassSortAndAssignStrategy.java:160-163 | round-robin rewinds its cursor to -1; the duration strategy is returned unchanged (loads and fallback cursor are not reset) |
| SortAndAssign.RoundRobinAssign | subprojects/testing-base/src/main/java/org/gradle/api/tasks/testing/TestClassSortAndAssignStrategy.java:155-158 | the returned slot is in [0, count), becomes the new cursor, and is (last + 1) mod count for every cursor, including one left past count by a lowered processor count |
| SortAndAssign.ScanLeastLoaded | subprojects/testing-base/src/main/java/org/gradle/api/tasks/testing/TestClassSortAndAssignStrategy.java:197-204 | the scan loop returns a slot holding the minimum load over [0, count) with every lower slot strictly heavier |
| SortAndAssign.LeastLoaded | subprojects/testing-base/src/main/java/org/gradle/api/tasks/testing/TestClassSortAndAssignStrategy.java:197-204 | the greedy choice is the least-loaded slot, ties going to the lowest index |
| SortAndAssign.LeastLoadedUnique | subprojects/testing-base/src/main/java/org/gradle/api/tasks/testing/TestClassSortAndAssignStrategy.java:197-204 | the least-loaded slot with lowest-index tie-break is unique, so the choice is fully determined |
| SortAndAssign.Assign | subprojects/testing-base/src/main/java/org/gradle/api/tasks/testing/TestClassSortAndAssignStrategy.java:191-207 | the slot is in [0, count); a class without a positive estimate gets (fallback cursor + 1) mod count, advances only the fallback cursor and leaves the loads unchanged; round-robin gets (cursor + 1) mod count; a known class gets the least-loaded slot (lowest index on ties), only that slot's load grows by the estimate (wrapping as a long), the fallback is untouched; it throws exactly when the load array is null or shorter than count |
| SortAndAssign.AssignAll | subprojects/testing-base/src/main/java/org/gradle/api/tasks/testing/TestClassSortAndAssignStrategy.java:77-86 | a run of assignments returns one slot per class, each in [0, count), and never fails for round-robin |
| SortAndAssign.WrappedIsRemainder | subprojects/testing-base/src/main/java/org/gradle/api/tasks/testing/TestClassSortAndAssignStrategy.java:155-158 | stepping a cursor forward a slots from 0 and wrapping at count lands on a mod count, the remainder the round-robin code takes |
| SortAndAssign.RoundRobinCycles | subprojects/testing-base/src/main/java/org/gradle/api/tasks/testing/TestClassSortAndAssignStrategy.java:151-163 | from any cursor c, even one past count, the k-th round-robin assignment is c + 1 + k wrapped at count (by repeated subtraction), whatever the class names |
| SortAndAssign.RoundRobinAfterStart | subprojects/testing-base/src/main/java/org/gradle/api/tasks/testing/TestClassSortAndAssignStrategy.java:151-163 | after startProcessing round-robin assigns 0, 1, ..., count-1, 0, 1, ... |
| SortAndAssign.Compare | subprojects/testing-base/src/main/java/org/gradle/api/tasks/testing/TestClassSortAndAssignStrategy.java:216-228 | two unknown classes compare equal, an unknown class sorts before a known one, two known classes compare in descending estimate order |
| SortAndAssign.CompareIsDescendingRank | subprojects/testing-base/src/main/java/org/gradle/api/tasks/testing/TestClassSortAndAssignStrategy.java:216-228 | the comparator is ordering by descending rank, where an unknown class ranks above every long estimate |
| SortAndAssign.CompareIsComparator | subprojects/testing-base/src/main/java/org/gradle/api/tasks/testing/TestClassSortAndAssignStrategy.java:211-228 | the comparator satisfies the java.util.Comparator contract: sign antisymmetry, transitivity, substitutability of equals |
| ClassSort.Sort | subprojects/testing-base/src/main/java/org/gradle/api/internal/tasks/testing/processors/RunPreviousFailedFirstTestClassProcessor.java:87-91 | the sorted group is a permutation of the group, in non-descending comparator order |
| ClassSort.SortedPermutationUnique | subprojects/testing-base/src/main/java/org/gradle/api/internal/tasks/testing/processors/RunPreviousFailedFirstTestClassProcessor.java:87-91 | when no two distinct classes compare equal, every sorted permutation is the same sequence, so stability of the library sort does not matter |
| PreviousFailedFirst.Create | subprojects/testing-base/src/main/java/org/gradle/api/internal/tasks/testing/processors/RunPreviousFailedFirstTestClassProcessor.java:49-54 | buffers start empty and the processor has a comparator exactly when the strategy's getSorter is non-null |
| PreviousFailedFirst.LinkedAdd | subprojects/testing-base/src/main/java/org/gradle/api/internal/tasks/testing/processors/RunPreviousFailedFirstTestClassProcessor.java:44-45 | LinkedHashSet.add keeps elements distinct and in first-insertion position, and changes nothing for an element already present |
| PreviousFailedFirst.ProcessTestClass | subprojects/testing-base/src/main/java/org/gradle/api/internal/tasks/testing/processors/RunPreviousFailedFirstTestClassProcessor.java:63-69 | a class in the failed set joins only the prioritized buffer, any other class joins only the other buffer; existing positions are kept and the buffers stay distinct and disjoint |
| PreviousFailedFirst.ResubmitIsNoOp | subprojects/testing-base/src/main/java/org/gradle/api/internal/tasks/testing/processors/RunPreviousFailedFirstTestClassProcessor.java:44-45 | submitting an already buffered class leaves the processor unchanged |
| PreviousFailedFirst.ProcessTestClassIdempotent | subprojects/testing-base/src/main/java/org/gradle/api/internal/tasks/testing/processors/RunPreviousFailedFirstTestClassProcessor.java:63-69 | submitting a class twice in a row is the same as submitting it once |
| PreviousFailedFirst.SubmitAllPartitions | subprojects/testing-base/src/main/java/org/gradle/api/internal/tasks/testing/processors/RunPreviousFailedFirstTestClassProcessor.java:63-69 | after any submission sequence each buffer holds exactly the submitted classes on its side of the failed set, once each, in order of first submission |
| PreviousFailedFirst.Sorting | subprojects/testing-base/src/main/java/org/gradle/api/internal/tasks/testing/processors/RunPreviousFailedFirstTestClassProcessor.java:87-93 | a group is kept as buffered when there is no comparator or it is empty, and is otherwise a sorted permutation of itself |
| PreviousFailedFirst.Stop | subprojects/testing-base/src/main/java/org/gradle/api/internal/tasks/testing/processors/RunPreviousFailedFirstTestClassProcessor.java:72-80 | stop makes one processTestClass call per buffered class and then exactly one stop call, last |
| PreviousFailedFirst.StopForwardsGroups | subprojects/testing-base/src/main/java/org/gradle/api/internal/tasks/testing/processors/RunPreviousFailedFirstTestClassProcessor.java:72-78 | the delegate receives the failed group's sorting followed by the other group's sorting |
| PreviousFailedFirst.StopSortsEachGroup | subprojects/testing-base/src/main/java/org/gradle/api/internal/tasks/testing/processors/RunPreviousFailedFirstTestClassProcessor.java:72-93 | each forwarded group is a permutation of its buffer; it is the buffer's insertion order without a comparator and sorted by the comparator with one |
| PreviousFailedFirst.StopForwardsPrioritizedFirst | subprojects/testing-base/src/main/java/org/gradle/api/internal/tasks/testing/processors/RunPreviousFailedFirstTestClassProcessor.java:72-78 | every previously failed class is forwarded strictly before every other class |
| PreviousFailedFirst.StopForwardsEachBufferedClassOnce | subprojects/testing-base/src/main/java/org/gradle/api/internal/tasks/testing/processors/RunPreviousFailedFirstTestClassProcessor.java:72-80 | the forwarded classes are a duplicate-free permutation of the two buffers, and the delegate's stop follows them |
| PreviousFailedFirst.DrainForwardsEverySubmittedClassOnce | subprojects/testing-base/src/main/java/org/gradle/api/internal/tasks/testing/processors/RunPreviousFailedFirstTestClassProcessor.java:63-80 | after any submission sequence, stop forwards each distinct submitted class exactly once, failed ones first |
| PreviousFailedFirst.StopNow | subprojects/testing-base/src/main/java/org/gradle/api/internal/tasks/testing/processors/RunPreviousFailedFirstTestClassProcessor.java:82-85 | stopNow forwards no buffered class; its only call is exactly one stopNow on the delegate |
| PreviousFailedFirst.StartProcessing | subprojects/testing-base/src/main/java/org/gradle/api/internal/tasks/testing/processors/RunPreviousFailedFirstTestClassProcessor.java:57-60 | startProcessing starts the delegate and resets the strategy: the round-robin cursor goes back to -1, a duration strategy is unchanged |
| TestExecuter.NewExecuter | subprojects/testing-jvm/src/main/java/org/gradle/api/internal/tasks/testing/detection/DefaultTestExecuter.java:68-83 | a new executer keeps its worker ceiling and has no processor chain yet |
| TestExecuter.UsesClassStealing | subprojects/testing-jvm/src/main/java/org/gradle/api/internal/tasks/testing/detection/DefaultTestExecuter.java:95-96 | classes are stolen exactly when the user allows it, more than one fork runs and forks are not recycled |
| TestExecuter.GetMaxParallelForks | subprojects/testing-jvm/src/main/java/org/gradle/api/internal/tasks/testing/detection/DefaultTestExecuter.java:145-152 | the fork count is min(requested, maxWorkerCount) |
| TestExecuter.ChooseStrategy | subprojects/testing-jvm/src/main/java/org/gradle/api/internal/tasks/testing/detection/DefaultTestExecuter.java:111-117 | a null factory result, or a non-fallback strategy in a sequential run, is replaced by a fresh round-robin; otherwise the created strategy is kept; a sequential run always ends up with round-robin |
| TestExecuter.Execute | subprojects/testing-jvm/src/main/java/org/gradle/api/internal/tasks/testing/detection/DefaultTestExecuter.java:94-121 | the chain uses the clamped fork count, steals classes iff allowed, more than one fork and forkEvery == 0, and gives one strategy instance to both the prioritizer and the parallel processor |
| TestExecuter.StopNow | subprojects/testing-jvm/src/main/java/org/gradle/api/internal/tasks/testing/detection/DefaultTestExecuter.java:138-143 | stopNow does nothing exactly when no chain has been built; otherwise its only call is one immediate stopNow on the delegate, never a graceful stop or a forwarded class |
| TestExecuter.StopNowBeforeExecuteIsNoOp | subprojects/testing-jvm/src/main/java/org/gradle/api/internal/tasks/testing/detection/DefaultTestExecuter.java:138-143 | stopNow on an executer that never executed issues no call |
| TestExecuter.SequentialRunUsesRoundRobin | subprojects/testing-jvm/src/main/java/org/gradle/api/internal/tasks/testing/detection/DefaultTestExecuter.java:111-117 | with a single fork the chain uses round-robin, does not sort and does not steal classes |
| TestExecuter.ParallelRunKeepsCreatedStrategy | subprojects/testing-jvm/src/main/java/org/gradle/api/internal/tasks/testing/detection/DefaultTestExecuter.java:111-121 | with more than one fork the created strategy, and its comparator, reach the chain unchanged |
| TestExecuter.ClassStealingNeedsParallelForks | subprojects/testing-jvm/src/main/java/org/gradle/api/internal/tasks/testing/detection/DefaultTestExecuter.java:95-96 | class stealing implies a worker ceiling and a requested parallelism above one, and no fork recycling |
| JavaNum.AddLong | subprojects/testing-base/src/main/java/org/gradle/api/tasks/testing/TestClassSortAndAssignStrategy.java:205 | adding a duration to a slot load is exact without overflow and wraps by 2^64 on overflow, as Java long addition does |
| SchedulingExamples.GreedyAssignmentExample | subprojects/testing-base/src/main/java/org/gradle/api/tasks/testing/TestClassSortAndAssignStrategy.java:191-207 | with two slots and estimates Three=3, Two=2, One=1, the calls A, Three, B, Two, One get slots 0, 0, 1, 1, 1 and end with loads [3, 3] |
| SchedulingExamples.LoweredCountWrapsFallBack | subprojects/testing-base/src/main/java/org/gradle/api/tasks/testing/TestClassSortAndAssignStrategy.java:180-183 | lowering four slots to two keeps the fallback cursor at 3, past the new count, and the next unknown class still gets slot (3 + 1) mod 2 = 0 |
| SchedulingExamples.ComparatorOrderExample | subprojects/testing-base/src/main/java/org/gradle/api/tasks/testing/TestClassSortAndAssignStrategy.java:216-228 | any correct sort of an unknown class with Three, Two and One yields unknown, Three, Two, One |

## Left out

- The parallel execution layer is not part of this model. That covers `MaxNParallelTestClassProcessor`, `RestartEveryNTestClassProcessor`, `ForkingTestClassProcessor`, actors, worker leases and `JvmTestClassStealer`. It is concurrency and process plumbing. The prioritizer's delegate appears only as the calls it receives. `SortAndAssign.AssignAll` stands for the run of `assign` calls the dispatcher makes.
- Collaborators are not modelled: `TestMainAction`, `DefaultTestClassScanner`, `PatternMatchTestClassProcessor`, classpath construction and logging. They are I/O or wiring.
- TestExecuter.StopNow: `PatternMatchTestClassProcessor` is not part of this model. Its `stopNow` is taken to pass straight through to the prioritizer.
- `CollectionUtils.sort` is not part of this model. `ClassSort.Sort` is an insertion sort standing in for it. No property relies on more than "sorted by the comparator and a permutation", and stability is not assumed. The stand-in inserts each class after those it ties with, as a stable library sort would place it; no contract states this.
- Test-class identity is the class name. `TestClassRunInfo` equality is not part of this model, and the buffers dedupe by name.
- Custom strategy subclasses and custom factories are not modelled. The executer receives the factory's result as `created` (`None` for null). A strategy value is always one of the two well-known strategies.
- A `null` value stored in the durations map is treated like an absent key, which is what `Map.get` makes of it.
- SortAndAssign.MaxProcessorsUsed: with a negative count the Java method updates `count` and the fallback count before the array allocation throws. The model returns the error without the partly updated state.
- PreviousFailedFirst.StartProcessing: the model does not observe the order of the two calls, delegate start and then strategy reset. Nothing in the delegate is modelled that could see the order.
