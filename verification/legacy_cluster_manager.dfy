/**
 * The earlier single-file `ClusterManager` workflow. It differs from `ClusterManager` in the
 * details a model makes visible:
 *  - the node table is `None` until `start_cluster` runs;
 *  - a handler called after shutdown fails an `assert`, and too few free nodes raise a
 *    plain `ValueError`: neither is an application error, so the workflow task fails;
 *  - the peak counts every non-free node, bad ones included;
 *  - the reported number of assigned nodes is the count the last health check saw
 *    before it marked any node bad, not the current count;
 *  - `delete_job` returns "Done", and the run argument is `(state, max_history_length)`.
 */
module LegacyClusterManager {
  import opened Common
  import opened Seqs
  import opened PyDict
  import opened BadNodes
  import opened NodeTable
  import opened HistoryPolicy

  datatype ClusterState = ClusterState(
    started: bool,
    shutdown: bool,
    nodes: Option<Nodes>,
    maxAssigned: int,
    numAssigned: int)

  datatype ClusterResult = ClusterResult(maxAssignedNodes: int, numAssignedNodes: int)

  datatype Workflow = Workflow(state: ClusterState, maxHistoryLength: Option<int>)

  const EmptyState := ClusterState(false, false, None, 0, 0)

  /** `__init__`: `max_history_length` is only set once `run` starts. */
  function NewWorkflow(): Workflow {
    Workflow(EmptyState, None)
  }

  /** `assert not self.state.cluster_shutdown` failing. */
  const AssertionFailure := "AssertionError"
  /** A comprehension over `self.state.nodes` while it is still `None`. */
  const NoNodeTable := "AttributeError: 'NoneType' object has no attribute 'items'"

  /** `start_cluster` signal: builds a fresh table of 25 free nodes. */
  function StartCluster(s: ClusterState): (r: ClusterState)
    ensures r.started && r.nodes.Some?
    ensures Keys(r.nodes.value) == NodeNames()
    ensures forall k :: k in NodeNames() ==> Get(r.nodes.value, k) == Some(None)
    ensures r.shutdown == s.shutdown && r.maxAssigned == s.maxAssigned && r.numAssigned == s.numAssigned
  {
    s.(started := true, nodes := Some(FreshNodes()))
  }

  /** `shutdown_cluster` signal: waits for the cluster to start, then sets the flag. */
  function ShutdownCluster(s: ClusterState): (r: Step<ClusterState, ()>)
    ensures r.reply.Blocked? <==> !s.started
    ensures r.reply.Blocked? || r.reply.Returned?
    ensures r.reply.Blocked? ==> r.post == s
    ensures r.reply.Returned? ==> r.post.shutdown && r.post.(shutdown := s.shutdown) == s
  {
    if !s.started then Step(Blocked, s) else Step(Returned(()), s.(shutdown := true))
  }

  /** `allocate_n_nodes_to_job` together with `_allocate_nodes_to_job`. */
  function AllocateNNodesToJob(s: ClusterState, job: string, numNodes: int): (r: Step<ClusterState, seq<string>>)
    ensures r.reply.Blocked? <==> !s.started
    ensures r.reply.Returned? <==>
              s.started && !s.shutdown && s.nodes.Some? && numNodes <= |Unassigned(s.nodes.value)|
    ensures s.started && s.shutdown ==> r.reply == Stuck(AssertionFailure)
    ensures s.started && !s.shutdown && s.nodes.None? ==> r.reply == Stuck(NoNodeTable)
    ensures s.started && !s.shutdown && s.nodes.Some? && |Unassigned(s.nodes.value)| < numNodes ==>
              r.reply == Stuck("ValueError: " + NotEnoughNodesError(numNodes, |Unassigned(s.nodes.value)|))
    ensures !r.reply.Returned? ==> r.post == s
    ensures r.reply.Returned? ==>
              var got, before, after := r.reply.value, s.nodes.value, r.post.nodes;
              && after.Some?
              && got <= Unassigned(before)
              && (0 <= numNodes ==> |got| == numNodes)
              && Keys(after.value) == Keys(before)
              && (forall k :: k in got ==> Is(before, k, Free) && Get(after.value, k) == Some(Some(job)))
              && (forall k :: k !in got ==> Get(after.value, k) == Get(before, k))
              && r.post.started == s.started && r.post.shutdown == s.shutdown
              && r.post.numAssigned == s.numAssigned
              && r.post.maxAssigned >= s.maxAssigned
              && r.post.maxAssigned >= |Select(after.value, Taken)|
              && (r.post.maxAssigned == s.maxAssigned || r.post.maxAssigned == |Select(after.value, Taken)|)
  {
    if !s.started then Step(Blocked, s)
    else if s.shutdown then Step(Stuck(AssertionFailure), s)
    else if s.nodes.None? then Step(Stuck(NoNodeTable), s)
    else
      var free := Unassigned(s.nodes.value);
      if |free| < numNodes then Step(Stuck("ValueError: " + NotEnoughNodesError(numNodes, |free|)), s)
      else
        var chosen := FirstFree(s.nodes.value, numNodes);
        var nodes := SetAll(s.nodes.value, chosen, Some(job));
        Step(Returned(chosen), s.(nodes := Some(nodes), maxAssigned := Max(s.maxAssigned, |Select(nodes, Taken)|)))
  }

  /** `delete_job` together with `_deallocate_nodes_for_job`. */
  function DeleteJob(s: ClusterState, job: string): (r: Step<ClusterState, string>)
    ensures r.reply.Blocked? <==> !s.started
    ensures r.reply.Returned? <==> s.started && !s.shutdown && s.nodes.Some?
    ensures s.started && s.shutdown ==> r.reply == Stuck(AssertionFailure)
    ensures s.started && !s.shutdown && s.nodes.None? ==> r.reply == Stuck(NoNodeTable)
    ensures !r.reply.Returned? ==> r.post == s
    ensures r.reply.Returned? ==>
              var before, after := s.nodes.value, r.post.nodes;
              && r.reply.value == "Done"
              && after.Some?
              && r.post.started == s.started && r.post.shutdown == s.shutdown
              && r.post.maxAssigned == s.maxAssigned && r.post.numAssigned == s.numAssigned
              && Keys(after.value) == Keys(before)
              && forall k :: Get(after.value, k) == (if Is(before, k, HeldBy(job)) then Some(None) else Get(before, k))
  {
    if !s.started then Step(Blocked, s)
    else if s.shutdown then Step(Stuck(AssertionFailure), s)
    else if s.nodes.None? then Step(Stuck(NoNodeTable), s)
    else
      var toFree := Select(s.nodes.value, HeldBy(job));
      SubsequenceMembers(toFree, Keys(s.nodes.value));
      Step(Returned("Done"), s.(nodes := Some(SetAll(s.nodes.value, toFree, None))))
  }

  /**
   * `perform_health_checks`. The activity runs under the default retry policy, so a name
   * `int()` rejects makes it retry for ever: the check never completes (`Blocked`).
   */
  function PerformHealthChecks(s: ClusterState): (r: Step<ClusterState, ()>)
    ensures r.reply.Stuck? <==> s.nodes.None?
    ensures r.reply.Blocked? <==> s.nodes.Some? && !AllParse(AssignedNodes(s.nodes.value))
    ensures !r.reply.Returned? ==> r.post == s
    ensures r.reply.Returned? ==>
              var before, after := s.nodes.value, r.post.nodes;
              && after.Some?
              && r.post.started == s.started && r.post.shutdown == s.shutdown
              && r.post.maxAssigned == s.maxAssigned
              && r.post.numAssigned == |AssignedNodes(before)|
              && Keys(after.value) == Keys(before)
              && forall k :: Get(after.value, k) ==
                   (if Is(before, k, Assigned) && IsBad(k) then Some(Some(BAD)) else Get(before, k))
  {
    if s.nodes.None? then Step(Stuck(NoNodeTable), s)
    else
      var inUse := AssignedNodes(s.nodes.value);
      match FindBadNodes(inUse)
      case Err(_) => Step(Blocked, s)
      case Ok(bad) =>
        SubsequenceMembers(inUse, Keys(s.nodes.value));
        Step(Returned(()), s.(nodes := Some(SetAll(s.nodes.value, bad, Some(BAD))), numAssigned := |inUse|))
  }

  /**
   * The count a health check records includes the nodes it has just marked bad: it exceeds
   * the assigned count it leaves behind by exactly the number of bad nodes found.
   */
  lemma HealthCheckCountIsStale(s: ClusterState)
    requires PerformHealthChecks(s).reply.Returned?
    ensures var before, after := s.nodes.value, PerformHealthChecks(s).post;
            var bad := FindBadNodes(AssignedNodes(before)).value;
              && after.numAssigned == |AssignedNodes(after.nodes.value)| + |bad|
              && |Select(after.nodes.value, Taken)| == |Select(before, Taken)|
  {
    var bad := FindBadNodes(AssignedNodes(s.nodes.value)).value;
    MarkBadCounts(s.nodes.value, bad);
  }

  /** `init_from_previous_run`: a state object is always truthy, so any state handed over is adopted. */
  function Init(w: Workflow, state: Option<ClusterState>, maxHistoryLength: Option<int>): (r: Workflow)
    ensures r.state == (if state.Some? then state.value else w.state)
    ensures r.maxHistoryLength == maxHistoryLength
  {
    Workflow(if state.Some? then state.value else w.state, maxHistoryLength)
  }

  /** What the main loop does after each (at most one-second) wait. */
  datatype MainAction = Finish(result: ClusterResult) | CheckHealth

  function AfterWait(w: Workflow): (a: MainAction)
    ensures a.Finish? <==> w.state.shutdown
    ensures a.Finish? ==> a.result == ClusterResult(w.state.maxAssigned, w.state.numAssigned)
  {
    if w.state.shutdown then Finish(ClusterResult(w.state.maxAssigned, w.state.numAssigned)) else CheckHealth
  }

  /** What the loop does once a health check has completed. */
  datatype LoopEnd = ContinueAsNew(state: ClusterState, maxHistoryLength: Option<int>) | KeepRunning

  /**
   * The health check has just released `nodes_lock` and nothing else has run since, so
   * the lock is free when `should_continue_as_new` looks at it.
   */
  function AfterHealthCheck(w: Workflow, suggested: bool, historyLength: int): (e: LoopEnd)
    ensures e.ContinueAsNew? <==> ShouldContinueAsNew(false, suggested, w.maxHistoryLength, historyLength)
    ensures suggested ==> e.ContinueAsNew?
    ensures e.ContinueAsNew? ==> e.state == w.state && e.maxHistoryLength == w.maxHistoryLength
  {
    if ShouldContinueAsNew(false, suggested, w.maxHistoryLength, historyLength) then
      ContinueAsNew(w.state, w.maxHistoryLength)
    else KeepRunning
  }

  /** Continue-as-new hands the next run exactly the workflow this run had. */
  lemma ContinueAsNewHandOff(w: Workflow, suggested: bool, historyLength: int)
    requires AfterHealthCheck(w, suggested, historyLength).ContinueAsNew?
    ensures var e := AfterHealthCheck(w, suggested, historyLength);
            Init(NewWorkflow(), Some(e.state), e.maxHistoryLength) == w
  {
  }

  // ---------------------------------------------------------------------------------------
  // Every message and health check, applied atomically.

  datatype Event =
    | Start
    | Shutdown
    | Allocate(job: string, numNodes: int)
    | Delete(job: string)
    | HealthCheck

  function Apply(s: ClusterState, e: Event): ClusterState {
    match e
    case Start => StartCluster(s)
    case Shutdown => ShutdownCluster(s).post
    case Allocate(job, n) => AllocateNNodesToJob(s, job, n).post
    case Delete(job) => DeleteJob(s, job).post
    case HealthCheck => PerformHealthChecks(s).post
  }

  function ApplyAll(s: ClusterState, es: seq<Event>): ClusterState
    decreases |es|
  {
    if |es| == 0 then s else ApplyAll(Apply(s, es[0]), es[1..])
  }

  /** What every reachable state satisfies. */
  predicate Inv(s: ClusterState) {
    && (s.nodes.Some? <==> s.started)
    && (s.nodes.Some? ==> Keys(s.nodes.value) == NodeNames())
    && 0 <= s.maxAssigned <= NODE_COUNT
    && 0 <= s.numAssigned <= NODE_COUNT
  }

  lemma InvPreserved(s: ClusterState, e: Event)
    requires Inv(s)
    ensures Inv(Apply(s, e))
  {
    match e
    case Allocate(job, n) =>
      var t := AllocateNNodesToJob(s, job, n).post;
      if t.nodes.Some? {
        assert |Select(t.nodes.value, Taken)| <= |t.nodes.value| == |Keys(t.nodes.value)|;
      }
    case HealthCheck =>
      if s.nodes.Some? {
        assert |AssignedNodes(s.nodes.value)| <= |s.nodes.value| == |Keys(s.nodes.value)|;
      }
    case _ =>
  }

  lemma {:induction false} InvReachable(s: ClusterState, es: seq<Event>)
    requires Inv(s)
    ensures Inv(ApplyAll(s, es))
    decreases |es|
  {
    if |es| > 0 {
      InvPreserved(s, es[0]);
      InvReachable(Apply(s, es[0]), es[1..]);
    }
  }

  /**
   * In a reachable state, a started cluster's health check completes, and every handler
   * that gets past its wait raises only because the cluster is shut down or short of nodes.
   */
  lemma ReachableNeverStuckOnTable(es: seq<Event>)
    ensures var s := ApplyAll(EmptyState, es);
              && (s.started ==> PerformHealthChecks(s).reply.Returned?)
              && (forall job :: DeleteJob(s, job).reply.Stuck? ==> s.shutdown)
  {
    var s := ApplyAll(EmptyState, es);
    InvReachable(EmptyState, es);
    if s.started {
      NodeNamesParse(s.nodes.value);
    }
  }

  // ---------------------------------------------------------------------------------------
  // `do_cluster_lifecycle`: six jobs of two nodes each, then all six deleted, then shutdown.

  function Started(): ClusterState {
    StartCluster(EmptyState)
  }

  function AllocateTasks(count: nat): ClusterState {
    if count == 0 then Started() else AllocateNNodesToJob(AllocateTasks(count - 1), TaskName(count - 1), 2).post
  }

  function DeleteTasks(count: nat): ClusterState {
    if count == 0 then AllocateTasks(6) else DeleteJob(DeleteTasks(count - 1), TaskName(count - 1)).post
  }

  /** The counts after `count` of the driver's allocations. */
  ghost predicate AllocatedTasks(t: ClusterState, count: nat) {
    && t.started && !t.shutdown && t.nodes.Some? && t.numAssigned == 0
    && |Unassigned(t.nodes.value)| == NODE_COUNT - 2 * count
    && |Select(t.nodes.value, Taken)| == 2 * count
    && t.maxAssigned == 2 * count
    && forall j :: |Select(t.nodes.value, HeldBy(j))| == (if j in TaskNames(count) then 2 else 0)
  }

  lemma StartedCounts()
    ensures var t := Started();
              && t.started && !t.shutdown && t.nodes.Some? && t.numAssigned == 0 && t.maxAssigned == 0
              && |Unassigned(t.nodes.value)| == NODE_COUNT
              && |Select(t.nodes.value, Taken)| == 0
              && forall j :: |Select(t.nodes.value, HeldBy(j))| == 0
  {
    FreshNodesCounts();
  }

  lemma AllocateTaskStep(s: ClusterState, count: nat)
    requires 2 * count + 2 <= NODE_COUNT
    requires AllocatedTasks(s, count)
    ensures AllocatedTasks(AllocateNNodesToJob(s, TaskName(count), 2).post, count + 1)
  {
    var job := TaskName(count);
    TaskNameFacts(count, count);
    FirstFreeDistinct(s.nodes.value, 2);
    AssignCounts(s.nodes.value, FirstFree(s.nodes.value, 2), job);
    var t := AllocateNNodesToJob(s, job, 2).post;
    assert TaskNames(count + 1) == TaskNames(count) + [job];
    assert |Select(t.nodes.value, Taken)| == 2 * (count + 1);
    assert t.maxAssigned == 2 * (count + 1);
    forall j ensures |Select(t.nodes.value, HeldBy(j))| == (if j in TaskNames(count + 1) then 2 else 0) {
      assert |Select(s.nodes.value, HeldBy(j))| == (if j in TaskNames(count) then 2 else 0);
    }
  }

  lemma {:induction false} AllocateTasksCounts(count: nat)
    requires 2 * count <= NODE_COUNT
    ensures AllocatedTasks(AllocateTasks(count), count)
  {
    if count == 0 {
      StartedAllocatesNothing();
    } else {
      AllocateTasksCounts(count - 1);
      AllocateTaskStep(AllocateTasks(count - 1), count - 1);
      AllocateTasksUnfold(count);
    }
  }

  lemma AllocateTasksUnfold(count: nat)
    requires count > 0
    ensures AllocateTasks(count) == AllocateNNodesToJob(AllocateTasks(count - 1), TaskName(count - 1), 2).post
  {
  }

  lemma StartedAllocatesNothing()
    ensures AllocatedTasks(AllocateTasks(0), 0)
  {
    StartedCounts();
    assert TaskNames(0) == [];
  }

  lemma {:induction false} DeleteTasksCounts(count: nat)
    requires count <= 6
    ensures DeletedTasks(DeleteTasks(count), count)
  {
    if count == 0 {
      NothingDeletedYet();
    } else {
      DeleteTasksCounts(count - 1);
      DeleteTaskStep(DeleteTasks(count - 1), count - 1);
      DeleteTasksUnfold(count);
    }
  }

  lemma DeleteTasksUnfold(count: nat)
    requires count > 0
    ensures DeleteTasks(count) == DeleteJob(DeleteTasks(count - 1), TaskName(count - 1)).post
  {
  }

  lemma NothingDeletedYet()
    ensures DeletedTasks(DeleteTasks(0), 0)
  {
    AllocateTasksCounts(6);
    AllocatedAllSix(AllocateTasks(6));
  }

  /** Once all six jobs hold their nodes, none of them has been deleted yet. */
  lemma AllocatedAllSix(t: ClusterState)
    requires AllocatedTasks(t, 6)
    ensures DeletedTasks(t, 0)
  {
    assert TaskNames(0) == [];
    forall j ensures |Select(t.nodes.value, HeldBy(j))| == (if j in TaskNames(6) && j !in TaskNames(0) then 2 else 0) {
      assert |Select(t.nodes.value, HeldBy(j))| == (if j in TaskNames(6) then 2 else 0);
    }
  }

  /** The counts after all six allocations and `count` of the deletions. */
  ghost predicate DeletedTasks(t: ClusterState, count: nat) {
    && t.started && !t.shutdown && t.nodes.Some? && t.numAssigned == 0
    && |Select(t.nodes.value, Taken)| == 12 - 2 * count
    && t.maxAssigned == 12
    && forall j :: |Select(t.nodes.value, HeldBy(j))| ==
         (if j in TaskNames(6) && j !in TaskNames(count) then 2 else 0)
  }

  lemma DeleteTaskStep(s: ClusterState, count: nat)
    requires count < 6
    requires DeletedTasks(s, count)
    ensures DeletedTasks(DeleteJob(s, TaskName(count)).post, count + 1)
  {
    var job := TaskName(count);
    TaskNameFacts(count, count);
    TaskNameFacts(count, 6);
    ReleaseCounts(s.nodes.value, job);
    assert TaskNames(count + 1) == TaskNames(count) + [job];
    var t := DeleteJob(s, job).post;
    assert |Select(t.nodes.value, Taken)| == 12 - 2 * (count + 1);
    forall j ensures |Select(t.nodes.value, HeldBy(j))| ==
                     (if j in TaskNames(6) && j !in TaskNames(count + 1) then 2 else 0) {
      assert |Select(s.nodes.value, HeldBy(j))| == (if j in TaskNames(6) && j !in TaskNames(count) then 2 else 0);
    }
  }

  /**
   * The driver with no health check in between: the run reports a peak of 12 and, since
   * no health check ever recorded a count, 0 assigned nodes.
   */
  lemma LifecyclePeak(w: Workflow)
    ensures AfterWait(w.(state := ShutdownCluster(DeleteTasks(6)).post)) == Finish(ClusterResult(12, 0))
  {
    DeleteTasksCounts(6);
  }
}
