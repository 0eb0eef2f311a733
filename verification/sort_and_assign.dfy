/**
 * The two well-known test-class sort-and-assign strategies: the unsorted
 * round-robin cursor and the duration-sorted greedy assignment that falls back
 * to an embedded round-robin for classes without a usable duration.
 *
 * Java objects with mutable fields become immutable values here; every
 * mutating Java method becomes a function returning the updated strategy.
 */
module SortAndAssign {
  import opened JavaNum
  import opened Outcome

  /** `UnsortedRoundRobin`: `count` is inherited from the base class, `last` is the cursor. */
  datatype RoundRobin = RoundRobin(count: int, last: int) {
    /** `count` is clamped to at least 1 and fits an int; `last` is -1 or an index already returned. */
    predicate Valid() {
      1 <= count <= INT_MAX && -1 <= last < INT_MAX
    }
  }

  /**
   * A strategy instance. `DurationSorted` carries its own `count`, the
   * duration estimates, the embedded round-robin fallback and the per-slot
   * load array `assignedDurations`, which stays null (`None`) until
   * `maxProcessorsUsed` allocates it.
   */
  datatype Strategy =
    | UnsortedRoundRobin(rr: RoundRobin)
    | DurationSorted(count: int, durations: map<string, int>, fallBack: RoundRobin, loads: Option<seq<int>>)

  /** The comparator a duration strategy hands out from `getSorter`. */
  datatype Sorter = ClassByDuration(durations: map<string, int>)

  /** Every estimate is a Java `long`. */
  predicate DurationsValid(durations: map<string, int>) {
    forall c | c in durations :: IsLong(durations[c])
  }

  /** Every slot load is a Java `long`. */
  predicate LoadsValid(loads: seq<int>) {
    forall i | 0 <= i < |loads| :: IsLong(loads[i])
  }

  /** The states reachable from the two factories through the operations below. */
  predicate Valid(s: Strategy) {
    match s
    case UnsortedRoundRobin(rr) => rr.Valid()
    case DurationSorted(count, durations, fallBack, loads) =>
      && 1 <= count <= INT_MAX
      && fallBack.Valid()
      && fallBack.count == count
      && DurationsValid(durations)
      && (loads.Some? ==>
            && LoadsValid(loads.value)
            && (|loads.value| == count || (|loads.value| == 0 && count == 1)))
  }

  /** The base-class field `count`: the number of processors assignments range over. */
  function Count(s: Strategy): int {
    match s
    case UnsortedRoundRobin(rr) => rr.count
    case DurationSorted(count, _, _, _) => count
  }

  /** `isFallBack`: true exactly for the round-robin strategy. */
  predicate IsFallBack(s: Strategy) {
    s.UnsortedRoundRobin?
  }

  /** A class whose duration the greedy assignment uses: present and strictly positive. */
  predicate KnownPositive(durations: map<string, int>, testClass: string) {
    testClass in durations && durations[testClass] > 0
  }

  /** `UNSORTED_ROUND_ROBIN.create()`: count 1 and the cursor before slot 0. */
  function CreateUnsortedRoundRobin(): (s: Strategy)
    ensures Valid(s) && IsFallBack(s)
    ensures Count(s) == 1 && s.rr.last == -1
  {
    UnsortedRoundRobin(RoundRobin(1, -1))
  }

  /** `sortByDurations(durations).create()`: a fresh greedy strategy with no load array yet. */
  function CreateSortByDurations(durations: map<string, int>): (s: Strategy)
    requires DurationsValid(durations)
    ensures Valid(s) && !IsFallBack(s)
    ensures Count(s) == 1 && s.durations == durations
    ensures s.fallBack == CreateUnsortedRoundRobin().rr
    ensures s.loads.None?
  {
    DurationSorted(1, durations, RoundRobin(1, -1), None)
  }

  /** `getSorter`: no comparator for round-robin, the by-duration comparator otherwise. */
  function GetSorter(s: Strategy): (r: Option<Sorter>)
    ensures r.None? <==> IsFallBack(s)
    ensures r.Some? ==> r.value.durations == s.durations
  {
    match s
    case UnsortedRoundRobin(_) => None
    case DurationSorted(_, durations, _, _) => Some(ClassByDuration(durations))
  }

  /** The base-class `maxProcessorsUsed` on a round-robin cursor. */
  function RoundRobinMaxProcessorsUsed(rr: RoundRobin, processorCount: int): (r: RoundRobin)
    requires rr.Valid() && IsInt(processorCount)
    ensures r.Valid()
    ensures r.count >= 1 && r.count >= processorCount
    ensures processorCount >= 1 ==> r.count == processorCount
    ensures processorCount < 1 ==> r.count == 1
    ensures r.last == rr.last
  {
    rr.(count := Max(processorCount, 1))
  }

  /**
   * `maxProcessorsUsed(processorCount)`. The duration strategy also
   * propagates the count to its fallback and allocates `processorCount`
   * zeroed loads; a negative count makes that allocation throw.
   */
  function MaxProcessorsUsed(s: Strategy, processorCount: int): (r: Result<Strategy>)
    requires Valid(s) && IsInt(processorCount)
    ensures r.Ok? <==> IsFallBack(s) || processorCount >= 0
    ensures r.Err? ==> r.error == NegativeArraySize
    ensures r.Ok? ==> Valid(r.value) && IsFallBack(r.value) == IsFallBack(s)
    ensures r.Ok? ==> Count(r.value) >= 1 && Count(r.value) >= processorCount
    ensures r.Ok? && processorCount >= 1 ==> Count(r.value) == processorCount
    ensures r.Ok? && processorCount < 1 ==> Count(r.value) == 1
    ensures r.Ok? && IsFallBack(s) ==> r.value.rr.last == s.rr.last
    ensures r.Ok? && !IsFallBack(s) ==>
      && r.value.durations == s.durations
      && r.value.fallBack.count == Count(r.value)
      && r.value.fallBack.last == s.fallBack.last
      && r.value.loads.Some?
      && |r.value.loads.value| == processorCount
      && (forall i | 0 <= i < processorCount :: r.value.loads.value[i] == 0)
  {
    match s
    case UnsortedRoundRobin(rr) =>
      Ok(UnsortedRoundRobin(RoundRobinMaxProcessorsUsed(rr, processorCount)))
    case DurationSorted(_, durations, fallBack, _) =>
      if processorCount < 0 then Err(NegativeArraySize)
      else
        Ok(DurationSorted(Max(processorCount, 1), durations,
                          RoundRobinMaxProcessorsUsed(fallBack, processorCount),
                          Some(seq(processorCount, _ => 0))))
  }

  /** `startProcessing`: round-robin rewinds its cursor; the duration strategy does not override it. */
  function StartProcessing(s: Strategy): (r: Strategy)
    requires Valid(s)
    ensures Valid(r) && Count(r) == Count(s) && IsFallBack(r) == IsFallBack(s)
    ensures IsFallBack(r) ==> r.rr.last == -1
    ensures !IsFallBack(s) ==> r == s
  {
    match s
    case UnsortedRoundRobin(rr) => UnsortedRoundRobin(rr.(last := -1))
    case DurationSorted(_, _, _, _) => s
  }

  /** `UnsortedRoundRobin.assign`: advance the cursor modulo `count` and return it. */
  function RoundRobinAssign(rr: RoundRobin): (r: (int, RoundRobin))
    requires rr.Valid()
    ensures 0 <= r.0 < rr.count
    ensures r.1.Valid() && r.1.count == rr.count && r.1.last == r.0
    ensures rr.last + 1 < rr.count ==> r.0 == rr.last + 1
    ensures rr.last + 1 == rr.count ==> r.0 == 0
    ensures r.0 == Wrapped(rr.last + 1, rr.count)
  {
    ModStep(rr.last + 1, rr.count);
    WrappedIsRemainder(rr.last + 1, rr.count);
    var next := (rr.last + 1) % rr.count;
    (next, rr.(last := next))
  }

  /**
   * The slot the greedy assignment picks: it holds the minimum load over
   * `[0, count)` and every lower slot holds a strictly larger load, so ties
   * go to the lowest index.
   */
  predicate IsLeastLoaded(loads: seq<int>, count: int, index: int) {
    && 0 <= index < count <= |loads|
    && (forall j | 0 <= j < count :: loads[index] <= loads[j])
    && (forall j | 0 <= j < index :: loads[index] < loads[j])
  }

  /** The scan loop of `assign`: `idx` is the loop variable, `index` the best slot so far. */
  function ScanLeastLoaded(loads: seq<int>, count: int, idx: int, index: int): (r: int)
    requires 1 <= count <= |loads|
    requires 0 <= index < idx <= count
    requires forall j | 0 <= j < idx :: loads[index] <= loads[j]
    requires forall j | 0 <= j < index :: loads[index] < loads[j]
    ensures IsLeastLoaded(loads, count, r)
    decreases count - idx
  {
    if idx == count then index
    else ScanLeastLoaded(loads, count, idx + 1, if loads[idx] < loads[index] then idx else index)
  }

  /** The greedy choice: the scan started at slot 0. */
  function LeastLoaded(loads: seq<int>, count: int): (index: int)
    requires 1 <= count <= |loads|
    ensures IsLeastLoaded(loads, count, index)
  {
    ScanLeastLoaded(loads, count, 1, 0)
  }

  /** The least-loaded slot with lowest-index tie-break is unique. */
  lemma LeastLoadedUnique(loads: seq<int>, count: int, i: int, j: int)
    requires IsLeastLoaded(loads, count, i) && IsLeastLoaded(loads, count, j)
    ensures i == j
  {
    assert loads[i] == loads[j];
  }

  /**
   * `assign(testClass)`. Round-robin ignores the class. The duration strategy
   * sends a class with no positive estimate to its fallback and otherwise adds
   * the estimate to the least-loaded slot; that path throws when the load
   * array was never allocated or is shorter than `count`.
   */
  function Assign(s: Strategy, testClass: string): (r: Result<(int, Strategy)>)
    requires Valid(s)
    ensures r.Err? <==>
      && s.DurationSorted?
      && KnownPositive(s.durations, testClass)
      && (s.loads.None? || |s.loads.value| < s.count)
    ensures r.Err? && s.loads.None? ==> r.error == NullPointer
    ensures r.Err? && s.loads.Some? ==> r.error == ArrayIndexOutOfBounds
    ensures r.Ok? ==>
      && 0 <= r.value.0 < Count(s)
      && Valid(r.value.1)
      && Count(r.value.1) == Count(s)
      && IsFallBack(r.value.1) == IsFallBack(s)
      && GetSorter(r.value.1) == GetSorter(s)
    // round-robin and the fallback path: the cursor steps, nothing else changes
    ensures r.Ok? && IsFallBack(s) ==> r.value.1.rr.last == r.value.0
    ensures IsFallBack(s) ==> r.Ok? && r.value.0 == Wrapped(s.rr.last + 1, s.rr.count)
    ensures s.DurationSorted? && !KnownPositive(s.durations, testClass) ==>
      && r.Ok?
      && r.value.1 == s.(fallBack := s.fallBack.(last := r.value.0))
      && (s.fallBack.last + 1 < s.count ==> r.value.0 == s.fallBack.last + 1)
      && (s.fallBack.last + 1 == s.count ==> r.value.0 == 0)
      && r.value.0 == Wrapped(s.fallBack.last + 1, s.count)
    // the greedy path: least-loaded slot, only that slot grows by the estimate
    ensures s.DurationSorted? && KnownPositive(s.durations, testClass) && r.Ok? ==>
      s.loads.Some? && r.value.1.DurationSorted? && r.value.1.loads.Some? &&
      var loads := s.loads.value;
      var loads' := r.value.1.loads.value;
      var i := r.value.0;
      && IsLeastLoaded(loads, s.count, i)
      && r.value.1.fallBack == s.fallBack
      && |loads'| == |loads|
      && (forall j | 0 <= j < |loads| && j != i :: loads'[j] == loads[j])
      && loads'[i] == AddLong(loads[i], s.durations[testClass])
      && (loads[i] + s.durations[testClass] <= LONG_MAX ==> loads'[i] == loads[i] + s.durations[testClass])
  {
    match s
    case UnsortedRoundRobin(rr) =>
      var (index, rr') := RoundRobinAssign(rr);
      Ok((index, UnsortedRoundRobin(rr')))
    case DurationSorted(count, durations, fallBack, maybeLoads) =>
      if !KnownPositive(durations, testClass) then
        var (index, fallBack') := RoundRobinAssign(fallBack);
        Ok((index, s.(fallBack := fallBack')))
      else if maybeLoads.None? then
        Err(NullPointer)
      else if |maybeLoads.value| < count then
        Err(ArrayIndexOutOfBounds)
      else
        var loads := maybeLoads.value;
        var index := LeastLoaded(loads, count);
        Ok((index, s.(loads := Some(loads[index := AddLong(loads[index], durations[testClass])]))))
  }

  /**
   * A run of `assign` calls, one per forwarded class, as the parallel
   * dispatcher issues them; stops at the first exception.
   */
  function AssignAll(s: Strategy, classes: seq<string>): (r: Result<(seq<int>, Strategy)>)
    requires Valid(s)
    ensures IsFallBack(s) ==> r.Ok?
    ensures r.Ok? ==>
      && |r.value.0| == |classes|
      && (forall k | 0 <= k < |classes| :: 0 <= r.value.0[k] < Count(s))
      && Valid(r.value.1)
      && Count(r.value.1) == Count(s)
      && IsFallBack(r.value.1) == IsFallBack(s)
    decreases |classes|
  {
    if classes == [] then Ok(([], s))
    else
      match Assign(s, classes[0])
      case Err(e) => Err(e)
      case Ok((index, s')) =>
        match AssignAll(s', classes[1..])
        case Err(e) => Err(e)
        case Ok((rest, s'')) => Ok(([index] + rest, s''))
  }

  /** Remainder of a non-negative `a` by repeated subtraction: the slot a cursor reaches after `a` steps from 0. */
  function Wrapped(a: int, n: int): (r: int)
    requires a >= 0 && n > 0
    ensures 0 <= r < n
    decreases a
  {
    if a < n then a else Wrapped(a - n, n)
  }

  /** Stepping by repeated subtraction agrees with Euclidean `%`. */
  lemma {:induction false} WrappedIsRemainder(a: int, n: int)
    requires a >= 0 && n > 0
    ensures Wrapped(a, n) == a % n
    decreases a
  {
    if a < n {
      ModStep(a, n);
    } else {
      WrappedIsRemainder(a - n, n);
      ModShift(a - n, 1, n);
    }
  }

  /**
   * From a cursor at `last`, round-robin hands the k-th class (counting from
   * 0) slot `(last + 1 + k) mod count`, whatever the class names are.
   */
  lemma {:induction false} RoundRobinCycles(s: Strategy, classes: seq<string>)
    requires Valid(s) && IsFallBack(s)
    ensures AssignAll(s, classes).Ok?
    ensures forall k | 0 <= k < |classes| :: AssignAll(s, classes).value.0[k] == Wrapped(s.rr.last + 1 + k, Count(s))
    decreases |classes|
  {
    if classes != [] {
      var n := Count(s);
      var (index, s') := RoundRobinAssign(s.rr);
      var t := UnsortedRoundRobin(s');
      assert Assign(s, classes[0]) == Ok((index, t));
      WrappedIsRemainder(s.rr.last + 1, n);
      RoundRobinCycles(t, classes[1..]);
      var rest := AssignAll(t, classes[1..]).value.0;
      assert AssignAll(s, classes).value.0 == [index] + rest;
      forall k | 1 <= k < |classes|
        ensures AssignAll(s, classes).value.0[k] == Wrapped(s.rr.last + 1 + k, n)
      {
        assert rest[k - 1] == Wrapped(index + 1 + (k - 1), n);
        WrappedIsRemainder(index + k, n);
        WrappedIsRemainder(s.rr.last + 1 + k, n);
        ModAddReduced(s.rr.last + 1, n, k);
      }
    }
  }

  /** After `startProcessing`, round-robin assigns `0, 1, ..., count-1, 0, 1, ...`. */
  lemma RoundRobinAfterStart(s: Strategy, classes: seq<string>)
    requires Valid(s) && IsFallBack(s)
    ensures AssignAll(StartProcessing(s), classes).Ok?
    ensures forall k | 0 <= k < |classes| :: AssignAll(StartProcessing(s), classes).value.0[k] == k % Count(s)
  {
    RoundRobinCycles(StartProcessing(s), classes);
    forall k | 0 <= k < |classes|
      ensures AssignAll(StartProcessing(s), classes).value.0[k] == k % Count(s)
    {
      WrappedIsRemainder(k, Count(s));
    }
  }

  /**
   * `ClassByDurationComparator.compare`: classes without an entry compare
   * equal to each other and before every class with one; classes with an
   * entry compare by descending estimate. A present estimate counts as known
   * here even when it is not positive.
   */
  function Compare(sorter: Sorter, o1: string, o2: string): (r: int)
    ensures -1 <= r <= 1
    ensures o1 !in sorter.durations && o2 !in sorter.durations ==> r == 0
    ensures o1 !in sorter.durations && o2 in sorter.durations ==> r < 0
    ensures o1 in sorter.durations && o2 !in sorter.durations ==> r > 0
    ensures o1 in sorter.durations && o2 in sorter.durations ==>
      && (r < 0 <==> sorter.durations[o1] > sorter.durations[o2])
      && (r == 0 <==> sorter.durations[o1] == sorter.durations[o2])
  {
    var durations := sorter.durations;
    if o1 !in durations && o2 !in durations then 0
    else if o1 in durations && o2 in durations then CompareLong(durations[o2], durations[o1])
    else if o1 !in durations then -1
    else 1
  }

  /** Rank used as an independent description of the comparator: unknown ranks above every estimate. */
  function Rank(sorter: Sorter, c: string): (r: int)
    ensures c !in sorter.durations ==> r == LONG_MAX + 1
    ensures c in sorter.durations ==> r == sorter.durations[c]
  {
    if c in sorter.durations then sorter.durations[c] else LONG_MAX + 1
  }

  /** The comparator orders classes by descending rank, with equal ranks comparing equal. */
  lemma CompareIsDescendingRank(sorter: Sorter, o1: string, o2: string)
    requires DurationsValid(sorter.durations)
    ensures Compare(sorter, o1, o2) < 0 <==> Rank(sorter, o1) > Rank(sorter, o2)
    ensures Compare(sorter, o1, o2) == 0 <==> Rank(sorter, o1) == Rank(sorter, o2)
    ensures Compare(sorter, o1, o2) > 0 <==> Rank(sorter, o1) < Rank(sorter, o2)
  {
    if o1 in sorter.durations {
      assert IsLong(sorter.durations[o1]);
    }
    if o2 in sorter.durations {
      assert IsLong(sorter.durations[o2]);
    }
  }

  /**
   * The `java.util.Comparator` contract: sign antisymmetry, transitivity and
   * substitutability of equal elements.
   */
  lemma CompareIsComparator(sorter: Sorter, x: string, y: string, z: string)
    requires DurationsValid(sorter.durations)
    ensures Compare(sorter, x, y) == -Compare(sorter, y, x)
    ensures Compare(sorter, x, y) > 0 && Compare(sorter, y, z) > 0 ==> Compare(sorter, x, z) > 0
    ensures Compare(sorter, x, y) == 0 ==> Compare(sorter, x, z) == Compare(sorter, y, z)
  {
    CompareIsDescendingRank(sorter, x, y);
    CompareIsDescendingRank(sorter, y, x);
    CompareIsDescendingRank(sorter, y, z);
    CompareIsDescendingRank(sorter, x, z);
  }
}
