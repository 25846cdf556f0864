/**
 * `ClusterManagerWorkflow`: a long-running entity workflow that hands out the nodes of a
 * 25-node cluster to jobs. Signals start and shut down the cluster; updates allocate
 * nodes to a job and delete a job; the main routine runs periodic health checks and
 * continues as new, carrying its whole state over to the next run.
 *
 * Handlers that hold `nodes_lock` are one atomic step; `wait_condition(p)` is a step that
 * replies `Blocked` and changes nothing while `p` is false; activity calls that only log
 * are dropped, and `find_bad_nodes` is the pure filter of module `BadNodes`.
 */
module ClusterManager {
  import opened Common
  import opened Seqs
  import opened Decimal
  import opened PyDict
  import opened BadNodes
  import opened NodeTable
  import opened HistoryPolicy

  datatype ClusterState = ClusterState(
    started: bool,
    shutdown: bool,
    nodes: Nodes,
    maxAssigned: int)

  /** The run's argument; also what continue-as-new passes to the next run. */
  datatype ClusterInput = ClusterInput(state: Option<ClusterState>, testContinueAsNew: bool)

  datatype ClusterResult = ClusterResult(maxAssignedNodes: int, numCurrentlyAssignedNodes: nat)

  /** The workflow object: its state plus the continue-as-new test settings. */
  datatype Workflow = Workflow(state: ClusterState, maxHistoryLength: Option<int>, sleepIntervalSeconds: int)

  const EmptyState := ClusterState(false, false, [], 0)

  /** `__init__`. */
  function NewWorkflow(): Workflow {
    Workflow(EmptyState, None, 600)
  }

  const ShutDownAllocateError := "Cannot allocate nodes to a job: Cluster is already shut down"
  const ShutDownDeleteError := "Cannot delete a job: Cluster is already shut down"

  /** `start_cluster` signal: runs unconditionally and replaces any earlier allocation. */
  function StartCluster(s: ClusterState): (r: ClusterState)
    ensures r.started
    ensures r.shutdown == s.shutdown && r.maxAssigned == s.maxAssigned
    ensures Keys(r.nodes) == NodeNames()
    ensures forall k :: k in NodeNames() ==> Get(r.nodes, k) == Some(None)
  {
    s.(started := true, nodes := FreshNodes())
  }

  /** `shutdown_cluster` signal: waits for the cluster to start, then sets the flag. */
  function ShutdownCluster(s: ClusterState): (r: Step<ClusterState, ()>)
    ensures r.reply.Blocked? <==> !s.started
    ensures r.reply.Blocked? || r.reply.Returned?
    ensures r.reply.Blocked? ==> r.post == s
    ensures r.reply.Returned? ==> r.post.shutdown && r.post.(shutdown := s.shutdown) == s
  {
    if !s.started then Step(Blocked, s) else Step(Returned(()), s.(shutdown := true))
  }

  /**
   * `allocate_n_nodes_to_job` update together with `_allocate_nodes_to_job`: hands the first
   * `numNodes` free nodes (in key order) to `job` and raises the peak-usage counter.
   */
  function AllocateNNodesToJob(s: ClusterState, numNodes: int, job: string): (r: Step<ClusterState, seq<string>>)
    ensures r.reply.Blocked? <==> !s.started
    ensures r.reply.Returned? <==> s.started && !s.shutdown && numNodes <= |Unassigned(s.nodes)|
    ensures s.started && s.shutdown ==> r.reply == Failed(ShutDownAllocateError)
    ensures s.started && !s.shutdown && |Unassigned(s.nodes)| < numNodes ==>
              r.reply == Failed(NotEnoughNodesError(numNodes, |Unassigned(s.nodes)|))
    ensures !r.reply.Returned? ==> r.post == s
    ensures r.reply.Returned? ==>
              var got := r.reply.value;
              && got <= Unassigned(s.nodes)
              && (0 <= numNodes ==> |got| == numNodes)
              && Keys(r.post.nodes) == Keys(s.nodes)
              && (forall k :: k in got ==> Is(s.nodes, k, Free) && Get(r.post.nodes, k) == Some(Some(job)))
              && (forall k :: k !in got ==> Get(r.post.nodes, k) == Get(s.nodes, k))
              && r.post.started == s.started && r.post.shutdown == s.shutdown
              && r.post.maxAssigned >= s.maxAssigned
              && r.post.maxAssigned >= |AssignedNodes(r.post.nodes)|
              && (r.post.maxAssigned == s.maxAssigned || r.post.maxAssigned == |AssignedNodes(r.post.nodes)|)
  {
    if !s.started then Step(Blocked, s)
    else if s.shutdown then Step(Failed(ShutDownAllocateError), s)
    else
      var free := Unassigned(s.nodes);
      if |free| < numNodes then Step(Failed(NotEnoughNodesError(numNodes, |free|)), s)
      else
        var chosen := FirstFree(s.nodes, numNodes);
        var nodes := SetAll(s.nodes, chosen, Some(job));
        Step(Returned(chosen), s.(nodes := nodes, maxAssigned := Max(s.maxAssigned, |AssignedNodes(nodes)|)))
  }

  /** `delete_job` update together with `_deallocate_nodes_for_job`: frees the nodes of `job`. */
  function DeleteJob(s: ClusterState, job: string): (r: Step<ClusterState, ()>)
    ensures r.reply.Blocked? <==> !s.started
    ensures r.reply.Returned? <==> s.started && !s.shutdown
    ensures s.started && s.shutdown ==> r.reply == Failed(ShutDownDeleteError)
    ensures !r.reply.Returned? ==> r.post == s
    ensures r.reply.Returned? ==>
              && r.post.started == s.started && r.post.shutdown == s.shutdown
              && r.post.maxAssigned == s.maxAssigned
              && Keys(r.post.nodes) == Keys(s.nodes)
              && forall k :: Get(r.post.nodes, k) == (if Is(s.nodes, k, HeldBy(job)) then Some(None) else Get(s.nodes, k))
  {
    if !s.started then Step(Blocked, s)
    else if s.shutdown then Step(Failed(ShutDownDeleteError), s)
    else
      var toFree := Select(s.nodes, HeldBy(job));
      SubsequenceMembers(toFree, Keys(s.nodes));
      Step(Returned(()), s.(nodes := SetAll(s.nodes, toFree, None)))
  }

  /**
   * `perform_health_checks`: marks every assigned node that `find_bad_nodes` reports as "BAD!".
   * The activity runs with a single attempt, so a name `int()` rejects fails the run.
   */
  function PerformHealthChecks(s: ClusterState): (r: Result<ClusterState>)
    ensures r.Err? <==> !AllParse(AssignedNodes(s.nodes))
    ensures r.Ok? ==>
              && r.value.started == s.started && r.value.shutdown == s.shutdown
              && r.value.maxAssigned == s.maxAssigned
              && Keys(r.value.nodes) == Keys(s.nodes)
              && forall k :: Get(r.value.nodes, k) ==
                   (if Is(s.nodes, k, Assigned) && IsBad(k) then Some(Some(BAD)) else Get(s.nodes, k))
  {
    var inUse := AssignedNodes(s.nodes);
    match FindBadNodes(inUse)
    case Err(e) => Err(e)
    case Ok(bad) =>
      SubsequenceMembers(inUse, Keys(s.nodes));
      Ok(s.(nodes := SetAll(s.nodes, bad, Some(BAD))))
  }

  /** A health check takes exactly the bad nodes it finds out of the assigned count. */
  lemma HealthCheckCounts(s: ClusterState)
    requires PerformHealthChecks(s).Ok?
    ensures var bad := FindBadNodes(AssignedNodes(s.nodes)).value;
            |AssignedNodes(PerformHealthChecks(s).value.nodes)| == |AssignedNodes(s.nodes)| - |bad|
  {
    MarkBadCounts(s.nodes, FindBadNodes(AssignedNodes(s.nodes)).value);
  }

  /**
   * A bad node is neither free nor assigned, so no allocation takes it, and only deleting
   * a job literally named "BAD!" frees it.
   */
  lemma BadNodeSticks(s: ClusterState, k: string, numNodes: int, job: string)
    requires Get(s.nodes, k) == Some(Some(BAD))
    ensures k !in Unassigned(s.nodes) && k !in AssignedNodes(s.nodes)
    ensures Get(AllocateNNodesToJob(s, numNodes, job).post.nodes, k) == Some(Some(BAD))
    ensures Get(DeleteJob(s, job).post.nodes, k) ==
              (if job == BAD && s.started && !s.shutdown then Some(None) else Some(Some(BAD)))
  {
    assert !Is(s.nodes, k, Free);
    assert Is(s.nodes, k, HeldBy(job)) <==> job == BAD;
  }

  /** `init`: a run started by continue-as-new adopts the state it was handed. */
  function Init(w: Workflow, input: ClusterInput): (r: Workflow)
    ensures r.state == (if input.state.Some? then input.state.value else w.state)
    ensures input.testContinueAsNew ==> r.maxHistoryLength == Some(120) && r.sleepIntervalSeconds == 1
    ensures !input.testContinueAsNew ==>
              r.maxHistoryLength == w.maxHistoryLength && r.sleepIntervalSeconds == w.sleepIntervalSeconds
  {
    var w1 := if input.state.Some? then w.(state := input.state.value) else w;
    if input.testContinueAsNew then w1.(maxHistoryLength := Some(120), sleepIntervalSeconds := 1) else w1
  }

  /** What the main loop does once its wait for shutdown or continue-as-new is over. */
  datatype MainAction = Finish(result: ClusterResult) | ContinueAsNew(next: ClusterInput) | KeepRunning

  function AfterWait(w: Workflow, input: ClusterInput, locked: bool, suggested: bool, historyLength: int): (a: MainAction)
    ensures a.Finish? <==> w.state.shutdown
    ensures a.Finish? ==> a.result == ClusterResult(w.state.maxAssigned, |AssignedNodes(w.state.nodes)|)
    ensures a.ContinueAsNew? ==> !locked
    ensures a.ContinueAsNew? ==> a.next == ClusterInput(Some(w.state), input.testContinueAsNew)
    ensures !w.state.shutdown && !locked && suggested ==> a.ContinueAsNew?
    ensures a.ContinueAsNew? <==>
              !w.state.shutdown && ShouldContinueAsNew(locked, suggested, w.maxHistoryLength, historyLength)
  {
    if w.state.shutdown then Finish(ClusterResult(w.state.maxAssigned, |AssignedNodes(w.state.nodes)|))
    else if ShouldContinueAsNew(locked, suggested, w.maxHistoryLength, historyLength) then
      ContinueAsNew(ClusterInput(Some(w.state), input.testContinueAsNew))
    else KeepRunning
  }

  /**
   * The next run starts exactly where this one stopped: same state, same test settings. It
   * holds in any state the run has reached, since handlers change only `state` and leave the
   * settings `init` chose.
   */
  lemma ContinueAsNewHandOff(input: ClusterInput, w: Workflow, locked: bool, suggested: bool, historyLength: int)
    requires w == Init(NewWorkflow(), input).(state := w.state)
    requires AfterWait(w, input, locked, suggested, historyLength).ContinueAsNew?
    ensures Init(NewWorkflow(), AfterWait(w, input, locked, suggested, historyLength).next) == w
  {
  }

  // ---------------------------------------------------------------------------------------
  // Every message, applied atomically.

  datatype Event =
    | Start
    | Shutdown
    | Allocate(numNodes: int, job: string)
    | Delete(job: string)
    | HealthCheck

  function Apply(s: ClusterState, e: Event): ClusterState {
    match e
    case Start => StartCluster(s)
    case Shutdown => ShutdownCluster(s).post
    case Allocate(n, job) => AllocateNNodesToJob(s, n, job).post
    case Delete(job) => DeleteJob(s, job).post
    case HealthCheck => var r := PerformHealthChecks(s); if r.Ok? then r.value else s
  }

  function ApplyAll(s: ClusterState, es: seq<Event>): ClusterState
    decreases |es|
  {
    if |es| == 0 then s else ApplyAll(Apply(s, es[0]), es[1..])
  }

  /** No message lowers the peak-usage counter. */
  lemma {:induction false} MaxNeverDecreases(s: ClusterState, es: seq<Event>)
    ensures ApplyAll(s, es).maxAssigned >= s.maxAssigned
    decreases |es|
  {
    if |es| > 0 {
      ApplyKeepsMax(s, es[0]);
      MaxNeverDecreases(Apply(s, es[0]), es[1..]);
    }
  }

  lemma ApplyKeepsMax(s: ClusterState, e: Event)
    ensures Apply(s, e).maxAssigned >= s.maxAssigned
  {
    match e
    case Start =>
    case Shutdown =>
    case Allocate(n, job) => var r := AllocateNNodesToJob(s, n, job);
    case Delete(job) => var r := DeleteJob(s, job);
    case HealthCheck => var r := PerformHealthChecks(s);
  }

  /** What every reachable state satisfies. */
  predicate Inv(s: ClusterState) {
    && (s.started ==> Keys(s.nodes) == NodeNames())
    && (!s.started ==> |s.nodes| == 0)
    && 0 <= s.maxAssigned <= NODE_COUNT
  }

  lemma InvPreserved(s: ClusterState, e: Event)
    requires Inv(s)
    ensures Inv(Apply(s, e))
  {
    match e
    case Allocate(n, job) =>
      var t := AllocateNNodesToJob(s, n, job).post;
      assert |AssignedNodes(t.nodes)| <= |t.nodes| == |Keys(t.nodes)|;
    case _ =>
  }

  lemma {:induction false} InvReachable(s: ClusterState, es: seq<Event>)
    requires Inv(s)
    ensures Inv(ApplyAll(s, es))
    decreases |es|
  {
    if |es| > 0 {
      InvPreserved(s, es[0]);
      InvReachable(Apply(s, es[0]), es[1..]);
    }
  }

  /** Node names are always `str(k)`, so in a reachable state the health check never fails. */
  lemma HealthCheckNeverFails(es: seq<Event>)
    ensures PerformHealthChecks(ApplyAll(EmptyState, es)).Ok?
  {
    var s := ApplyAll(EmptyState, es);
    InvReachable(EmptyState, es);
    if s.started {
      NodeNamesParse(s.nodes);
    }
  }

  // ---------------------------------------------------------------------------------------
  // The lifecycle driver: six jobs of two nodes each, then all six deleted.

  function Started(): ClusterState {
    StartCluster(EmptyState)
  }

  /** Allocations of two nodes to "task-0" .. "task-(count-1)", in that order. */
  function AllocateTasks(count: nat): ClusterState {
    if count == 0 then Started() else AllocateNNodesToJob(AllocateTasks(count - 1), 2, TaskName(count - 1)).post
  }

  /** After the six allocations, deletions of "task-0" .. "task-(count-1)". */
  function DeleteTasks(count: nat): ClusterState {
    if count == 0 then AllocateTasks(6) else DeleteJob(DeleteTasks(count - 1), TaskName(count - 1)).post
  }

  /** A successful allocation of `n` nodes to a job moves `n` nodes from free to that job. */
  lemma AllocateCounts(s: ClusterState, n: int, job: string)
    requires s.started && !s.shutdown && 0 <= n <= |Unassigned(s.nodes)| && job != BAD
    ensures var t := AllocateNNodesToJob(s, n, job).post;
              && t.started && !t.shutdown
              && |Unassigned(t.nodes)| == |Unassigned(s.nodes)| - n
              && |AssignedNodes(t.nodes)| == |AssignedNodes(s.nodes)| + n
              && t.maxAssigned == Max(s.maxAssigned, |AssignedNodes(s.nodes)| + n)
              && forall j :: |Select(t.nodes, HeldBy(j))| == |Select(s.nodes, HeldBy(j))| + (if j == job then n else 0)
  {
    FirstFreeDistinct(s.nodes, n);
    AssignCounts(s.nodes, FirstFree(s.nodes, n), job);
  }

  /** Deleting a job (not named "BAD!") frees exactly its nodes and keeps the peak. */
  lemma DeleteCounts(s: ClusterState, job: string)
    requires s.started && !s.shutdown && job != BAD
    ensures var t := DeleteJob(s, job).post;
              && t.started && !t.shutdown && t.maxAssigned == s.maxAssigned
              && |AssignedNodes(t.nodes)| == |AssignedNodes(s.nodes)| - |Select(s.nodes, HeldBy(job))|
              && forall j :: |Select(t.nodes, HeldBy(j))| == (if j == job then 0 else |Select(s.nodes, HeldBy(j))|)
  {
    ReleaseCounts(s.nodes, job);
  }

  lemma StartedCounts()
    ensures var t := Started();
              && t.started && !t.shutdown && t.maxAssigned == 0
              && |Unassigned(t.nodes)| == NODE_COUNT
              && |AssignedNodes(t.nodes)| == 0
              && forall j :: |Select(t.nodes, HeldBy(j))| == 0
  {
    FreshNodesCounts();
  }

  /** The counts after `count` of the driver's allocations. */
  ghost predicate AllocatedTasks(t: ClusterState, count: nat) {
    && t.started && !t.shutdown
    && |Unassigned(t.nodes)| == NODE_COUNT - 2 * count
    && |AssignedNodes(t.nodes)| == 2 * count
    && t.maxAssigned == 2 * count
    && forall j :: |Select(t.nodes, HeldBy(j))| == (if j in TaskNames(count) then 2 else 0)
  }

  lemma {:induction false} AllocateTasksCounts(count: nat)
    requires 2 * count <= NODE_COUNT
    ensures AllocatedTasks(AllocateTasks(count), count)
  {
    if count == 0 {
      StartedCounts();
      assert TaskNames(0) == [];
    } else {
      AllocateTasksCounts(count - 1);
      AllocateTaskStep(AllocateTasks(count - 1), count - 1);
    }
  }

  lemma AllocateTaskStep(s: ClusterState, count: nat)
    requires 2 * count + 2 <= NODE_COUNT
    requires AllocatedTasks(s, count)
    ensures AllocatedTasks(AllocateNNodesToJob(s, 2, TaskName(count)).post, count + 1)
  {
    var job := TaskName(count);
    TaskNameFacts(count, count);
    AllocateCounts(s, 2, job);
    var t := AllocateNNodesToJob(s, 2, job).post;
    assert TaskNames(count + 1) == TaskNames(count) + [job];
    assert t.started && !t.shutdown;
    assert |Unassigned(t.nodes)| == NODE_COUNT - 2 * (count + 1);
    assert |AssignedNodes(t.nodes)| == 2 * (count + 1);
    assert t.maxAssigned == 2 * (count + 1);
    forall j ensures |Select(t.nodes, HeldBy(j))| == (if j in TaskNames(count + 1) then 2 else 0) {
      assert |Select(s.nodes, HeldBy(j))| == (if j in TaskNames(count) then 2 else 0);
    }
  }

  lemma {:induction false} DeleteTasksCounts(count: nat)
    requires count <= 6
    ensures var t := DeleteTasks(count);
              && t.started && !t.shutdown
              && |AssignedNodes(t.nodes)| == 12 - 2 * count
              && t.maxAssigned == 12
              && forall j :: |Select(t.nodes, HeldBy(j))| ==
                   (if j in TaskNames(6) && j !in TaskNames(count) then 2 else 0)
  {
    if count == 0 {
      AllocateTasksCounts(6);
    } else {
      DeleteTasksCounts(count - 1);
      var s := DeleteTasks(count - 1);
      var job := TaskName(count - 1);
      TaskNameFacts(count - 1, count - 1);
      TaskNameFacts(count - 1, 6);
      DeleteCounts(s, job);
      assert TaskNames(count) == TaskNames(count - 1) + [job];
    }
  }

  /**
   * Six allocations of two nodes, six deletions, then shutdown: the run reports a peak of
   * 12 assigned nodes and none assigned at the end.
   */
  lemma LifecyclePeak(w: Workflow, input: ClusterInput, locked: bool, suggested: bool, historyLength: int)
    ensures var done := w.(state := ShutdownCluster(DeleteTasks(6)).post);
            AfterWait(done, input, locked, suggested, historyLength) == Finish(ClusterResult(12, 0))
  {
    DeleteTasksCounts(6);
  }
}
