/**
 * `WashAndDryCycle` ordered relative to its main routine: main adds detergent, waits for the
 * wash, removes the non-dryables, then waits for the dry; `wash` waits for detergent and
 * `dry` for both the wash and the removal. The two activities only log.
 */
module WashDryPipeline {
  import opened Common

  /** The main routine's position: 0 before adding detergent, 1 waiting for the wash, 2 waiting for the dry, 3 done. */
  type Stage = n: nat | n <= 3

  datatype Cycle = Cycle(
    hasDetergent: bool,
    washComplete: bool,
    nonDryablesRemoved: bool,
    dryComplete: bool,
    stage: Stage)

  function Init(): Cycle {
    Cycle(false, false, false, false, 0)
  }

  /** One step of `run`. */
  function MainStep(s: Cycle): (r: Step<Cycle, ()>)
    ensures r.reply.Blocked? <==> (s.stage == 1 && !s.washComplete) || (s.stage == 2 && !s.dryComplete) || s.stage == 3
    ensures r.reply.Blocked? ==> r.post == s
    ensures !r.reply.Blocked? ==> r.post.stage == s.stage + 1
    ensures r.reply.Returned? <==> s.stage == 2 && s.dryComplete
    ensures s.stage == 0 ==> r.post == s.(hasDetergent := true, stage := 1)
    ensures s.stage == 1 && s.washComplete ==> r.post == s.(nonDryablesRemoved := true, stage := 2)
    ensures s.stage == 2 && s.dryComplete ==> r.post == s.(stage := 3)
  {
    match s.stage
    case 0 => Step(Pending, s.(hasDetergent := true, stage := 1))
    case 1 => if !s.washComplete then Step(Blocked, s) else Step(Pending, s.(nonDryablesRemoved := true, stage := 2))
    case 2 => if !s.dryComplete then Step(Blocked, s) else Step(Returned(()), s.(stage := 3))
    case 3 => Step(Blocked, s)
  }

  /** The `wash` update: waits for detergent. */
  function Wash(s: Cycle): (r: Step<Cycle, ()>)
    ensures r.reply.Blocked? <==> !s.hasDetergent
    ensures r.reply.Blocked? ==> r.post == s
    ensures !r.reply.Blocked? ==> r.reply == Returned(()) && r.post == s.(washComplete := true)
  {
    if !s.hasDetergent then Step(Blocked, s) else Step(Returned(()), s.(washComplete := true))
  }

  /** The `dry` update: waits for the wash and the removal of non-dryables. */
  function Dry(s: Cycle): (r: Step<Cycle, ()>)
    ensures r.reply.Blocked? <==> !(s.washComplete && s.nonDryablesRemoved)
    ensures r.reply.Blocked? ==> r.post == s
    ensures !r.reply.Blocked? ==> r.reply == Returned(()) && r.post == s.(dryComplete := true)
  {
    if !(s.washComplete && s.nonDryablesRemoved) then Step(Blocked, s) else Step(Returned(()), s.(dryComplete := true))
  }

  datatype Event = Main | WashUpdate | DryUpdate

  function Apply(s: Cycle, e: Event): Cycle {
    match e
    case Main => MainStep(s).post
    case WashUpdate => Wash(s).post
    case DryUpdate => Dry(s).post
  }

  function ApplyAll(s: Cycle, es: seq<Event>): Cycle
    decreases |es|
  {
    if |es| == 0 then s else ApplyAll(Apply(s, es[0]), es[1..])
  }

  /**
   * The flags become true in the order detergent, wash, non-dryables, dry, and the main
   * routine's stage tells which of its own flags are set.
   */
  ghost predicate Inv(s: Cycle) {
    && (s.washComplete ==> s.hasDetergent)
    && (s.nonDryablesRemoved ==> s.washComplete)
    && (s.dryComplete ==> s.washComplete && s.nonDryablesRemoved)
    && (s.hasDetergent <==> s.stage >= 1)
    && (s.nonDryablesRemoved <==> s.stage >= 2)
    && (s.stage == 3 ==> s.dryComplete)
  }

  /** Flags are never reset and the stage never goes back. */
  ghost predicate Later(s: Cycle, t: Cycle) {
    && (s.hasDetergent ==> t.hasDetergent)
    && (s.washComplete ==> t.washComplete)
    && (s.nonDryablesRemoved ==> t.nonDryablesRemoved)
    && (s.dryComplete ==> t.dryComplete)
    && s.stage <= t.stage
  }

  lemma {:induction false} InvReachable(s: Cycle, es: seq<Event>)
    requires Inv(s)
    ensures Inv(ApplyAll(s, es)) && Later(s, ApplyAll(s, es))
    decreases |es|
  {
    if |es| > 0 {
      InvReachable(Apply(s, es[0]), es[1..]);
    }
  }

  /** `run` has returned only after the dry, which came after everything else. */
  lemma RunEndsAfterDry(es: seq<Event>)
    ensures var s := ApplyAll(Init(), es);
              s.stage == 3 ==> s.hasDetergent && s.washComplete && s.nonDryablesRemoved && s.dryComplete
  {
    InvReachable(Init(), es);
  }
}
