/**
 * Outcome types shared by every workflow model.
 *
 * A message handler (signal, update, validator, query) or one step of a workflow's
 * main routine is modelled as one atomic transition from a state to a `Step`: the
 * reply the caller observes and the state afterwards.
 */
module Common {

  /** Python's `Optional[T]`. */
  datatype Option<+T> = None | Some(value: T)

  /** A computation that either yields a value or raises an exception with a message. */
  datatype Result<+T> = Ok(value: T) | Err(error: string)

  /** What the caller of a handler (or the host of the main routine) observes. */
  datatype Reply<+T> =
    /** The handler waits on `workflow.wait_condition` whose predicate is false; it has done nothing yet. */
    | Blocked
    /** The handler has made changes and is now suspended (on a wait or an activity): the caller
        has no answer yet, and `post` holds the changes. */
    | Pending
    /** The update's validator raised: the update is rejected and the handler never runs. */
    | Rejected(reason: string)
    /** The handler raised an `ApplicationError`: the update fails, the workflow goes on. */
    | Failed(error: string)
    /** The handler raised any other exception: the workflow task fails and is retried, so the
        caller gets no answer. `post` is what the handler had done when it raised, `finally`
        blocks included. */
    | Stuck(error: string)
    /** The handler ran to completion and returned a value. */
    | Returned(value: T)

  datatype Step<+S, +T> = Step(reply: Reply<T>, post: S)
}
