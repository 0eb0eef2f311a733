/**
 * The scheduling decisions the JVM test executer makes when it assembles the
 * processor chain for a run: how many forks run in parallel, whether idle
 * forks may steal test classes, and which sort-and-assign strategy the chain
 * uses. The forking, filtering and scanning processors are left out; the
 * chain is reduced to these decisions and the prioritizer.
 */
module TestExecuter {
  import opened Outcome
  import opened SortAndAssign
  import PreviousFailedFirst

  /** The parts of the test execution spec the decisions read. */
  datatype ExecutionSpec = ExecutionSpec(
    maxParallelForks: int,
    forkEvery: int,
    allowTestClassStealing: bool,
    previousFailedTestClasses: set<string>)

  /**
   * The processor chain built by `execute`. There is a single `strategy`:
   * the prioritizer and the parallel processor share one instance, so a reset
   * by one is seen by the other.
   */
  datatype Pipeline = Pipeline(
    maxParallelForks: int,
    classStealing: bool,
    strategy: Strategy,
    prioritizer: PreviousFailedFirst.Prioritizer)

  /** The executer: the worker ceiling it was built with and the chain of the last `execute`, if any. */
  datatype Executer = Executer(maxWorkerCount: int, processor: Option<Pipeline>)

  /** A freshly constructed executer has not built a chain yet. */
  function NewExecuter(maxWorkerCount: int): (e: Executer)
    ensures e.maxWorkerCount == maxWorkerCount && e.processor.None?
  {
    Executer(maxWorkerCount, None)
  }

  /** `getMaxParallelForks`: the requested parallelism, lowered to the worker ceiling. */
  function GetMaxParallelForks(requested: int, maxWorkerCount: int): (r: int)
    ensures r <= requested && r <= maxWorkerCount
    ensures r == requested || r == maxWorkerCount
  {
    if requested > maxWorkerCount then maxWorkerCount else requested
  }

  /** Class stealing: allowed by the user, more than one fork, and no fork recycling. */
  predicate UsesClassStealing(allowTestClassStealing: bool, maxParallelForks: int, forkEvery: int) {
    allowTestClassStealing && maxParallelForks > 1 && forkEvery == 0
  }

  /**
   * The strategy the chain uses, given what the factory created (`None` for
   * null): a fresh round-robin when nothing was created or when the run is
   * sequential and the created strategy is not already round-robin.
   */
  function ChooseStrategy(created: Option<Strategy>, maxParallelForks: int): (r: Strategy)
    ensures created.None? ==> r == CreateUnsortedRoundRobin()
    ensures created.Some? && maxParallelForks == 1 && !IsFallBack(created.value) ==> r == CreateUnsortedRoundRobin()
    ensures created.Some? && (maxParallelForks != 1 || IsFallBack(created.value)) ==> r == created.value
    ensures maxParallelForks == 1 ==> IsFallBack(r)
    ensures (created.None? || Valid(created.value)) ==> Valid(r)
  {
    if created.None? || (maxParallelForks == 1 && !IsFallBack(created.value)) then
      CreateUnsortedRoundRobin()
    else
      created.value
  }

  /** The decisions of `execute`: the chain it builds and keeps for `stopNow`. */
  function Execute(e: Executer, spec: ExecutionSpec, created: Option<Strategy>): (r: Executer)
    ensures r.maxWorkerCount == e.maxWorkerCount && r.processor.Some?
    ensures r.processor.value.maxParallelForks <= e.maxWorkerCount
    ensures r.processor.value.maxParallelForks <= spec.maxParallelForks
    ensures r.processor.value.maxParallelForks == spec.maxParallelForks
         || r.processor.value.maxParallelForks == e.maxWorkerCount
    ensures r.processor.value.classStealing <==>
      && spec.allowTestClassStealing
      && r.processor.value.maxParallelForks > 1
      && spec.forkEvery == 0
    ensures r.processor.value.strategy == ChooseStrategy(created, r.processor.value.maxParallelForks)
    ensures r.processor.value.prioritizer ==
      PreviousFailedFirst.Create(spec.previousFailedTestClasses, r.processor.value.strategy)
  {
    var maxParallelForks := GetMaxParallelForks(spec.maxParallelForks, e.maxWorkerCount);
    var classStealing := UsesClassStealing(spec.allowTestClassStealing, maxParallelForks, spec.forkEvery);
    var strategy := ChooseStrategy(created, maxParallelForks);
    var prioritizer := PreviousFailedFirst.Create(spec.previousFailedTestClasses, strategy);
    e.(processor := Some(Pipeline(maxParallelForks, classStealing, strategy, prioritizer)))
  }

  /**
   * `stopNow`: nothing before a chain exists; otherwise the prioritizer's
   * `stopNow`, whose calls on its delegate are returned.
   */
  function StopNow(e: Executer): (calls: seq<PreviousFailedFirst.Call>)
    ensures e.processor.None? <==> calls == []
    ensures PreviousFailedFirst.Forwarded(calls) == []
    ensures e.processor.Some? ==> calls == [PreviousFailedFirst.StopNowDelegate]
  {
    match e.processor
    case None => []
    case Some(pipeline) => PreviousFailedFirst.StopNow(pipeline.prioritizer)
  }

  /** `stopNow` on an executer that never ran does nothing. */
  lemma StopNowBeforeExecuteIsNoOp(maxWorkerCount: int)
    ensures StopNow(NewExecuter(maxWorkerCount)) == []
  {
  }

  /**
   * A run with a single fork always uses a fresh round-robin strategy, so it
   * neither sorts nor balances by duration, and never steals classes.
   */
  lemma SequentialRunUsesRoundRobin(e: Executer, spec: ExecutionSpec, created: Option<Strategy>)
    requires GetMaxParallelForks(spec.maxParallelForks, e.maxWorkerCount) == 1
    ensures var pipeline := Execute(e, spec, created).processor.value;
      && IsFallBack(pipeline.strategy)
      && pipeline.prioritizer.sorter.None?
      && !pipeline.classStealing
  {
  }

  /** A run with several forks keeps whatever strategy the factory created. */
  lemma ParallelRunKeepsCreatedStrategy(e: Executer, spec: ExecutionSpec, created: Strategy)
    requires GetMaxParallelForks(spec.maxParallelForks, e.maxWorkerCount) != 1
    ensures Execute(e, spec, Some(created)).processor.value.strategy == created
    ensures Execute(e, spec, Some(created)).processor.value.prioritizer.sorter == GetSorter(created)
  {
  }

  /** Class stealing needs a worker ceiling and a requested parallelism above one. */
  lemma ClassStealingNeedsParallelForks(e: Executer, spec: ExecutionSpec, created: Option<Strategy>)
    requires Execute(e, spec, created).processor.value.classStealing
    ensures e.maxWorkerCount > 1 && spec.maxParallelForks > 1 && spec.forkEvery == 0
  {
  }
}
