/**
 * A workflow with two updates where `update1` waits for `update2`, and whose main routine,
 * after seeing `update1` complete, waits for ever.
 */
module TwoUpdates {
  import opened Common

  datatype TwoState = TwoState(update1MayContinue: bool, isComplete: bool, sawComplete: bool)

  function Init(): TwoState {
    TwoState(false, false, false)
  }

  /** `update1`: waits for `update2`, then marks completion. */
  function Update1(s: TwoState): (r: Step<TwoState, string>)
    ensures r.reply.Blocked? <==> !s.update1MayContinue
    ensures r.reply.Blocked? ==> r.post == s
    ensures !r.reply.Blocked? ==> r.reply == Returned("update1: complete") && r.post == s.(isComplete := true)
  {
    if !s.update1MayContinue then Step(Blocked, s) else Step(Returned("update1: complete"), s.(isComplete := true))
  }

  /** `update2`: lets `update1` continue. */
  function Update2(s: TwoState): (r: Step<TwoState, string>)
    ensures r == Step(Returned("update2: complete"), s.(update1MayContinue := true))
  {
    Step(Returned("update2: complete"), s.(update1MayContinue := true))
  }

  /** One step of `run`: the first wait ends once `is_complete`; the second never does. */
  function RunStep(s: TwoState): (r: Step<TwoState, string>)
    ensures !r.reply.Returned?
    ensures r.reply.Blocked? <==> s.sawComplete || !s.isComplete
    ensures !r.reply.Blocked? ==> r.post == s.(sawComplete := true)
  {
    if !s.sawComplete && s.isComplete then Step(Pending, s.(sawComplete := true)) else Step(Blocked, s)
  }

  datatype Event = First | Second | Main

  function Apply(s: TwoState, e: Event): TwoState {
    match e
    case First => Update1(s).post
    case Second => Update2(s).post
    case Main => RunStep(s).post
  }

  function ApplyAll(s: TwoState, es: seq<Event>): TwoState
    decreases |es|
  {
    if |es| == 0 then s else ApplyAll(Apply(s, es[0]), es[1..])
  }

  ghost predicate Inv(s: TwoState) {
    (s.isComplete ==> s.update1MayContinue) && (s.sawComplete ==> s.isComplete)
  }

  /** `is_complete` implies `update2` ran; and after any events `run` has still not returned. */
  lemma {:induction false} InvReachable(s: TwoState, es: seq<Event>)
    requires Inv(s)
    ensures Inv(ApplyAll(s, es))
    ensures !RunStep(ApplyAll(s, es)).reply.Returned?
    decreases |es|
  {
    if |es| > 0 {
      InvReachable(Apply(s, es[0]), es[1..]);
    }
  }
}
