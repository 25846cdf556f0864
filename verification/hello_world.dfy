/**
 * `HelloWorldWorkflow` of the basic update documentation: a `set_greeting` update with a
 * validator, an update that fails on purpose, one that fails the whole workflow, and an
 * `exit` signal that lets `run` return the greeting.
 */
module HelloWorld {
  import opened Common

  datatype ShouldExit = Yes | NotYet | Fail

  datatype HelloState = HelloState(entity: Option<string>, shouldExit: ShouldExit)

  function Init(): HelloState {
    HelloState(None, NotYet)
  }

  const FailUpdate := "<fail-update>"
  const FailWorkflow := "<fail-workflow>"
  const FailUpdateError := "Workflow author deliberately failed the Update (but not the Workflow)"
  const FailWorkflowError := "Workflow author deliberately failed the Workflow"

  /** The entities the validator lets through. */
  const Accepted: set<string> := {"world", "World", FailUpdate, FailWorkflow}

  /** `set_greeting_validator`. */
  function Validate(entity: string): (r: Result<()>)
    ensures r.Ok? <==> entity == "world" || entity == "World" || entity == FailUpdate || entity == FailWorkflow
    ensures r.Err? ==> r.error == "invalid entity: " + entity
  {
    if entity !in Accepted then Err("invalid entity: " + entity) else Ok(())
  }

  /** `greeting()`: an unset entity is formatted as Python's `None`. */
  function Greeting(s: HelloState): (g: string)
    ensures s.entity.Some? ==> g == "Hello, " + s.entity.value + "!"
    ensures s.entity.None? ==> g == "Hello, None!"
  {
    "Hello, " + (if s.entity.Some? then s.entity.value else "None") + "!"
  }

  /** The `set_greeting` update, validator first. */
  function SetGreeting(s: HelloState, entity: string): (r: Step<HelloState, string>)
    ensures r.reply.Rejected? <==> Validate(entity).Err?
    ensures r.reply.Rejected? ==> r.post == s && r.reply.reason == "invalid entity: " + entity
    ensures !r.reply.Rejected? ==> r.post.entity == Some(entity)
    ensures entity == FailUpdate ==> r == Step(Failed(FailUpdateError), s.(entity := Some(entity)))
    ensures entity == FailWorkflow ==> r == Step(Pending, HelloState(Some(entity), Fail))
    ensures entity == "world" || entity == "World" ==>
              r.reply == Returned("Hello, " + entity + "!") && r.post == s.(entity := Some(entity))
  {
    if Validate(entity).Err? then Step(Rejected(Validate(entity).error), s)
    else
      var s1 := s.(entity := Some(entity));
      if entity == FailUpdate then Step(Failed(FailUpdateError), s1)
      else if entity == FailWorkflow then Step(Pending, s1.(shouldExit := Fail))
      else Step(Returned(Greeting(s1)), s1)
  }

  /** The `exit` signal. */
  function Exit(s: HelloState): (r: HelloState)
    ensures r.shouldExit == Yes && r.entity == s.entity
  {
    s.(shouldExit := Yes)
  }

  /** `run`: waits until told to exit, then fails or returns the greeting. */
  function Run(s: HelloState): (r: Step<HelloState, string>)
    ensures r.post == s
    ensures r.reply.Blocked? <==> s.shouldExit == NotYet
    ensures r.reply.Failed? <==> s.shouldExit == Fail
    ensures r.reply.Failed? ==> r.reply.error == FailWorkflowError
    ensures r.reply.Returned? <==> s.shouldExit == Yes
    ensures r.reply.Returned? ==> r.reply.value == Greeting(s)
  {
    match s.shouldExit
    case NotYet => Step(Blocked, s)
    case Fail => Step(Failed(FailWorkflowError), s)
    case Yes => Step(Returned(Greeting(s)), s)
  }

  /** After an ordinary update and `exit`, `run` returns the greeting that update returned. */
  lemma RunRepeatsLastGreeting(s: HelloState, entity: string)
    requires SetGreeting(s, entity).reply.Returned?
    ensures Run(Exit(SetGreeting(s, entity).post)).reply == SetGreeting(s, entity).reply
  {
  }

  /** "<fail-workflow>" makes `run` fail, unless an `exit` signal arrives before `run` wakes. */
  lemma FailWorkflowFailsRun(s: HelloState)
    ensures Run(SetGreeting(s, FailWorkflow).post).reply == Failed(FailWorkflowError)
    ensures Run(Exit(SetGreeting(s, FailWorkflow).post)).reply == Returned("Hello, " + FailWorkflow + "!")
  {
  }

  // ---------------------------------------------------------------------------------------
  // Reachable states.

  datatype Event = Update(entity: string) | ExitSignal

  function Apply(s: HelloState, e: Event): HelloState {
    match e
    case Update(entity) => SetGreeting(s, entity).post
    case ExitSignal => Exit(s)
  }

  function ApplyAll(s: HelloState, es: seq<Event>): HelloState
    decreases |es|
  {
    if |es| == 0 then s else ApplyAll(Apply(s, es[0]), es[1..])
  }

  /** Only a validated entity is ever stored. */
  lemma {:induction false} OnlyAcceptedEntities(s: HelloState, es: seq<Event>)
    requires s.entity.None? || s.entity.value in Accepted
    ensures var t := ApplyAll(s, es);
              t.entity.None? || t.entity.value in Accepted
    decreases |es|
  {
    if |es| > 0 {
      OnlyAcceptedEntities(Apply(s, es[0]), es[1..]);
    }
  }

  /** `run` can fail only if some update asked for "<fail-workflow>". */
  lemma {:induction false} FailNeedsFailWorkflow(s: HelloState, es: seq<Event>)
    ensures Run(ApplyAll(s, es)).reply.Failed? ==> s.shouldExit == Fail || Update(FailWorkflow) in es
    decreases |es|
  {
    if |es| > 0 {
      FailNeedsFailWorkflow(Apply(s, es[0]), es[1..]);
      assert es == [es[0]] + es[1..];
    }
  }
}
