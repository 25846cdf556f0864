/**
 * The `MessageProcessor` that serializes `do_task` updates: each update appends an
 * `UpdateTask` to a FIFO queue and waits for its result; the main routine takes one task
 * at a time, runs the activity for it, and waits until the update has returned before
 * taking the next. It continues as new only once the queue is empty.
 *
 * An `UpdateTask` object is shared by the update and the queue; the model names it by its
 * index in `tasks`, the list of every task created, in creation order.
 */
module SerializedTasks {
  import opened Common

  datatype UpdateTask = UpdateTask(arg: string, result: Option<string>, returned: bool)

  /** Where the main routine is. */
  datatype Pc =
    | LoopTop              // about to evaluate the `while` guard
    | WaitingForTask       // in `wait_condition(lambda: len(self.queue) > 0)`
    | Processing(id: nat)  // `process_task`: the activity for task `id` is running
    | AwaitingReturn(id: nat)  // `process_task`: waiting for task `id`'s update to return
    | ContinuedAsNew       // the run has ended with `continue_as_new()`

  /**
   * `popped` records the tasks the main routine has taken off the queue, in order; it is
   * history kept for the statement of FIFO order, not a field of the workflow.
   */
  datatype Processor = Processor(tasks: seq<UpdateTask>, queue: seq<nat>, popped: seq<nat>, pc: Pc)

  function NewProcessor(): Processor {
    Processor([], [], [], LoopTop)
  }

  /** Every task the queue and the main routine refer to exists. */
  predicate ValidIds(s: Processor) {
    && (forall j :: 0 <= j < |s.queue| ==> s.queue[j] < |s.tasks|)
    && (s.pc.Processing? || s.pc.AwaitingReturn? ==> s.pc.id < |s.tasks|)
  }

  /** `do_task`, up to its wait: creates the task, appends it to the queue, and names it. */
  function StartDoTask(s: Processor, arg: string): (r: (Processor, nat))
    ensures var (t, id) := r;
              && id == |s.tasks|
              && t.tasks == s.tasks + [UpdateTask(arg, None, false)]
              && t.queue == s.queue + [id]
              && t.popped == s.popped && t.pc == s.pc
    ensures ValidIds(s) ==> ValidIds(r.0)
  {
    var id := |s.tasks|;
    (s.(tasks := s.tasks + [UpdateTask(arg, None, false)], queue := s.queue + [id]), id)
  }

  const AssertionFailure := "AssertionError"

  /**
   * The rest of `do_task` for its task `id`: waits for the result, then marks the task
   * returned (in `finally`, so also when the assert on an empty result fails).
   */
  function FinishDoTask(s: Processor, id: nat): (r: Step<Processor, string>)
    requires id < |s.tasks|
    ensures r.reply.Blocked? <==> s.tasks[id].result.None?
    ensures r.reply.Blocked? ==> r.post == s
    ensures r.reply.Stuck? <==> s.tasks[id].result == Some("")
    ensures r.reply.Returned? ==> r.reply.value != "" && s.tasks[id].result == Some(r.reply.value)
    ensures r.reply.Blocked? || r.reply.Stuck? || r.reply.Returned?
    ensures !r.reply.Blocked? ==>
              r.post == s.(tasks := s.tasks[id := s.tasks[id].(returned := true)])
  {
    var task := s.tasks[id];
    if task.result.None? then Step(Blocked, s)
    else
      var post := s.(tasks := s.tasks[id := task.(returned := true)]);
      if task.result.value == "" then Step(Stuck(AssertionFailure), post)
      else Step(Returned(task.result.value), post)
  }

  /**
   * One step of `run` (with `process_task` inlined). `suggested` is
   * `is_continue_as_new_suggested()`; `activityResult` is what `some_activity` returns for
   * the task being processed.
   */
  function MainStep(s: Processor, suggested: bool, activityResult: string): (r: Step<Processor, ()>)
    requires ValidIds(s)
    ensures ValidIds(r.post)
    ensures r.reply.Blocked? || r.reply.Returned?
    ensures r.reply.Blocked? ==> r.post == s
    ensures r.post.pc.ContinuedAsNew? && !s.pc.ContinuedAsNew? ==> suggested && |s.queue| == 0
    ensures r.post.popped != s.popped ==>
              |s.queue| > 0 && r.post.popped == s.popped + [s.queue[0]] && r.post.queue == s.queue[1..]
    ensures r.post.popped == s.popped ==> r.post.queue == s.queue
    ensures s.pc.Processing? ==>
              r.post.tasks == s.tasks[s.pc.id := s.tasks[s.pc.id].(result := Some(activityResult))]
    ensures !s.pc.Processing? ==> r.post.tasks == s.tasks
    ensures s.pc.AwaitingReturn? ==> (r.reply.Blocked? <==> !s.tasks[s.pc.id].returned)
    ensures s.pc.AwaitingReturn? && !r.reply.Blocked? ==> r.post.pc == LoopTop
    ensures s.pc.LoopTop? ==>
              && !r.reply.Blocked?
              && (r.post.pc.ContinuedAsNew? <==> suggested && |s.queue| == 0)
              && (!r.post.pc.ContinuedAsNew? ==> r.post.pc == WaitingForTask)
    ensures s.pc.WaitingForTask? ==> (r.reply.Blocked? <==> |s.queue| == 0)
    ensures s.pc.WaitingForTask? && |s.queue| > 0 ==> r.post.pc == Processing(s.queue[0])
    ensures s.pc.Processing? ==> !r.reply.Blocked? && r.post.pc == AwaitingReturn(s.pc.id)
    ensures s.pc.ContinuedAsNew? ==> r.reply.Blocked?
  {
    match s.pc
    case LoopTop =>
      if !suggested || |s.queue| > 0 then Step(Returned(()), s.(pc := WaitingForTask))
      else Step(Returned(()), s.(pc := ContinuedAsNew))
    case WaitingForTask =>
      if |s.queue| == 0 then Step(Blocked, s)
      else Step(Returned(()), s.(queue := s.queue[1..], popped := s.popped + [s.queue[0]], pc := Processing(s.queue[0])))
    case Processing(id) =>
      var task := s.tasks[id];
      Step(Returned(()), s.(tasks := s.tasks[id := task.(result := Some(activityResult))], pc := AwaitingReturn(id)))
    case AwaitingReturn(id) =>
      if !s.tasks[id].returned then Step(Blocked, s) else Step(Returned(()), s.(pc := LoopTop))
    case ContinuedAsNew =>
      Step(Blocked, s)
  }

  // ---------------------------------------------------------------------------------------
  // Reachable states.

  datatype Event = Update(arg: string) | UpdateResumes(id: nat) | Main(suggested: bool, activityResult: string)

  function Apply(s: Processor, e: Event): (t: Processor)
    requires ValidIds(s)
    ensures ValidIds(t)
  {
    match e
    case Update(arg) => StartDoTask(s, arg).0
    case UpdateResumes(id) => if id < |s.tasks| then FinishDoTask(s, id).post else s
    case Main(suggested, x) => MainStep(s, suggested, x).post
  }

  function ApplyAll(s: Processor, es: seq<Event>): (t: Processor)
    requires ValidIds(s)
    ensures ValidIds(t)
    decreases |es|
  {
    if |es| == 0 then s else ApplyAll(Apply(s, es[0]), es[1..])
  }

  /** Task `i` has been taken by the main routine and its update has not yet returned. */
  predicate InProgress(s: Processor, i: nat)
    requires i < |s.tasks|
  {
    i in s.popped && !s.tasks[i].returned
  }

  /** All popped tasks except possibly the last have returned. */
  ghost predicate EarlierReturned(s: Processor, n: int) {
    forall j :: 0 <= j < n && j < |s.popped| ==> s.popped[j] < |s.tasks| && s.tasks[s.popped[j]].returned
  }

  ghost predicate Inv(s: Processor) {
    && ValidIds(s)
    && s.popped + s.queue == seq(|s.tasks|, i => i)
    && (forall i :: 0 <= i < |s.tasks| && s.tasks[i].returned ==> s.tasks[i].result.Some?)
    && (forall j :: 0 <= j < |s.queue| ==> s.tasks[s.queue[j]].result.None? && !s.tasks[s.queue[j]].returned)
    && match s.pc
       case Processing(id) =>
         |s.popped| > 0 && id == s.popped[|s.popped| - 1] && s.tasks[id].result.None? && !s.tasks[id].returned
         && EarlierReturned(s, |s.popped| - 1)
       case AwaitingReturn(id) =>
         |s.popped| > 0 && id == s.popped[|s.popped| - 1] && s.tasks[id].result.Some?
         && EarlierReturned(s, |s.popped| - 1)
       case _ => EarlierReturned(s, |s.popped|)
  }

  lemma InvInit()
    ensures Inv(NewProcessor())
  {
  }

  lemma InvPreserved(s: Processor, e: Event)
    requires Inv(s)
    ensures Inv(Apply(s, e))
  {
    match e
    case Update(arg) => InvAfterUpdate(s, arg);
    case UpdateResumes(id) => if id < |s.tasks| { InvAfterResume(s, id); }
    case Main(suggested, x) => InvAfterMain(s, suggested, x);
  }

  lemma InvAfterUpdate(s: Processor, arg: string)
    requires Inv(s)
    ensures Inv(StartDoTask(s, arg).0)
  {
    var t := StartDoTask(s, arg).0;
    assert t.popped + t.queue == (s.popped + s.queue) + [|s.tasks|];
  }

  lemma InvAfterResume(s: Processor, id: nat)
    requires Inv(s) && id < |s.tasks|
    ensures Inv(FinishDoTask(s, id).post)
  {
  }

  lemma InvAfterMain(s: Processor, suggested: bool, x: string)
    requires Inv(s)
    ensures Inv(MainStep(s, suggested, x).post)
  {
    var t := MainStep(s, suggested, x).post;
    QueueAfterPopped(s);
    if s.pc.WaitingForTask? && |s.queue| > 0 {
      assert t.popped + t.queue == s.popped + s.queue;
      assert t.popped[|t.popped| - 1] == s.queue[0];
    }
  }

  /** Queued tasks were all created after every popped one. */
  lemma QueueAfterPopped(s: Processor)
    requires s.popped + s.queue == seq(|s.tasks|, i => i)
    ensures forall j :: 0 <= j < |s.queue| ==> s.queue[j] == |s.popped| + j
    ensures forall j :: 0 <= j < |s.popped| ==> s.popped[j] == j
  {
    forall j | 0 <= j < |s.queue| ensures s.queue[j] == |s.popped| + j {
      assert s.queue[j] == (s.popped + s.queue)[|s.popped| + j];
    }
    forall j | 0 <= j < |s.popped| ensures s.popped[j] == j {
      assert s.popped[j] == (s.popped + s.queue)[j];
    }
  }

  lemma {:induction false} InvReachable(es: seq<Event>)
    ensures Inv(ApplyAll(NewProcessor(), es))
  {
    InvInit();
    InvFrom(NewProcessor(), es);
  }

  lemma {:induction false} InvFrom(s: Processor, es: seq<Event>)
    requires Inv(s)
    ensures Inv(ApplyAll(s, es))
    decreases |es|
  {
    if |es| > 0 {
      InvPreserved(s, es[0]);
      InvFrom(Apply(s, es[0]), es[1..]);
    }
  }

  /**
   * In every reachable state the main routine has taken the tasks in exactly the order
   * their updates created them, and at most one task is in progress.
   */
  lemma FifoAndSerial(es: seq<Event>)
    ensures var s := ApplyAll(NewProcessor(), es);
              && (forall j :: 0 <= j < |s.popped| ==> s.popped[j] == j)
              && (forall i: nat, k: nat :: i < |s.tasks| && k < |s.tasks| && InProgress(s, i) && InProgress(s, k) ==> i == k)
  {
    var s := ApplyAll(NewProcessor(), es);
    InvReachable(es);
    assert forall j :: 0 <= j < |s.popped| ==> s.popped[j] == (s.popped + s.queue)[j];
    forall i: nat, k: nat | i < |s.tasks| && k < |s.tasks| && InProgress(s, i) && InProgress(s, k) ensures i == k {
      var a :| 0 <= a < |s.popped| && s.popped[a] == i;
      var b :| 0 <= b < |s.popped| && s.popped[b] == k;
      assert a == |s.popped| - 1 && b == |s.popped| - 1;
    }
  }

  /** An update returns only for a task that the main loop has taken off the queue. */
  lemma ReturnedResultCameFromActivity(es: seq<Event>, id: nat)
    requires id < |ApplyAll(NewProcessor(), es).tasks|
    requires FinishDoTask(ApplyAll(NewProcessor(), es), id).reply.Returned?
    ensures id in ApplyAll(NewProcessor(), es).popped
  {
    var s := ApplyAll(NewProcessor(), es);
    InvReachable(es);
    assert seq(|s.tasks|, i => i)[id] == id;
    assert id in s.popped + s.queue;
    assert forall j :: 0 <= j < |s.queue| ==> s.queue[j] != id;
  }
}
