/**
 * The workflow of SDK issue 673: `start` (a signal) and `resume` (an update) each run
 * `run_one`, which counts itself in, marks the state "running", awaits an activity, counts
 * itself out and marks the state "stopped" when it was the last one.
 *
 * `inFlight` counts the `run_one` calls suspended on their activity; it is not a field of
 * the workflow, but the quantity the counter is meant to track.
 */
module RunningCount {
  import opened Common

  const Running := "running"
  const Stopped := "stopped"

  datatype Counter = Counter(runningCount: int, state: string, inFlight: nat)

  function Init(): Counter {
    Counter(0, Stopped, 0)
  }

  /** `run_one` up to its activity. */
  function BeginRunOne(s: Counter): (r: Counter)
    ensures r.runningCount == s.runningCount + 1 && r.state == Running && r.inFlight == s.inFlight + 1
  {
    Counter(s.runningCount + 1, Running, s.inFlight + 1)
  }

  /** The `start` signal. */
  function StartSignal(s: Counter): (r: Step<Counter, ()>)
    ensures r == Step(Pending, BeginRunOne(s))
  {
    Step(Pending, BeginRunOne(s))
  }

  /** The `resume` update: returns at once while running, otherwise runs `run_one`. */
  function Resume(s: Counter): (r: Step<Counter, ()>)
    ensures s.state == Running ==> r == Step(Returned(()), s)
    ensures s.state != Running ==> r == Step(Pending, BeginRunOne(s))
  {
    if s.state == Running then Step(Returned(()), s) else Step(Pending, BeginRunOne(s))
  }

  /** One suspended `run_one` gets its activity result and finishes. */
  function FinishRunOne(s: Counter): (r: Step<Counter, ()>)
    ensures r.reply.Blocked? <==> s.inFlight == 0
    ensures r.reply.Blocked? ==> r.post == s
    ensures !r.reply.Blocked? ==>
              && r.reply == Returned(())
              && r.post.runningCount == s.runningCount - 1
              && r.post.inFlight == s.inFlight - 1
              && r.post.state == (if s.runningCount - 1 == 0 then Stopped else s.state)
  {
    if s.inFlight == 0 then Step(Blocked, s)
    else
      var count := s.runningCount - 1;
      Step(Returned(()), Counter(count, if count == 0 then Stopped else s.state, s.inFlight - 1))
  }

  datatype Event = Start | ResumeUpdate | ActivityDone

  function Apply(s: Counter, e: Event): Counter {
    match e
    case Start => StartSignal(s).post
    case ResumeUpdate => Resume(s).post
    case ActivityDone => FinishRunOne(s).post
  }

  function ApplyAll(s: Counter, es: seq<Event>): Counter
    decreases |es|
  {
    if |es| == 0 then s else ApplyAll(Apply(s, es[0]), es[1..])
  }

  /** The counter equals the number of suspended `run_one` calls, and "running" means it is positive. */
  ghost predicate Inv(s: Counter) {
    && s.runningCount == s.inFlight
    && (s.state == Running <==> s.runningCount > 0)
    && (s.state == Running || s.state == Stopped)
  }

  lemma InvPreserved(s: Counter, e: Event)
    requires Inv(s)
    ensures Inv(Apply(s, e))
  {
  }

  lemma {:induction false} InvReachable(s: Counter, es: seq<Event>)
    requires Inv(s)
    ensures Inv(ApplyAll(s, es))
    decreases |es|
  {
    if |es| > 0 {
      InvPreserved(s, es[0]);
      InvReachable(Apply(s, es[0]), es[1..]);
    }
  }

  /**
   * In every reachable state the counter is never negative, `resume` while running starts
   * nothing, and once every `run_one` has finished the state is "stopped".
   */
  lemma CounterFacts(es: seq<Event>)
    ensures var s := ApplyAll(Init(), es);
              && s.runningCount >= 0
              && (s.state == Running ==> Resume(s).post == s)
              && (s.inFlight == 0 ==> s.state == Stopped)
  {
    InvReachable(Init(), es);
  }
}
