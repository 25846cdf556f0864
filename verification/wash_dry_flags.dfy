/** `WashAndDryCycle` with two flag-setting updates: `dry` waits until `wash` has run. */
module WashDryFlags {
  import opened Common

  datatype Cycle = Cycle(washComplete: bool, dryComplete: bool)

  function Init(): Cycle {
    Cycle(false, false)
  }

  /** The `wash` update: always enabled, sets only its own flag. */
  function Wash(s: Cycle): (r: Step<Cycle, ()>)
    ensures r.reply == Returned(())
    ensures r.post == Cycle(true, s.dryComplete)
  {
    Step(Returned(()), s.(washComplete := true))
  }

  /** The `dry` update: waits for washing. */
  function Dry(s: Cycle): (r: Step<Cycle, ()>)
    ensures r.reply.Blocked? <==> !s.washComplete
    ensures r.reply.Blocked? ==> r.post == s
    ensures !r.reply.Blocked? ==> r.reply == Returned(()) && r.post == Cycle(true, true)
  {
    if !s.washComplete then Step(Blocked, s) else Step(Returned(()), s.(dryComplete := true))
  }

  function Run(s: Cycle): (r: Step<Cycle, ()>)
    ensures r.post == s
    ensures r.reply.Blocked? <==> !s.dryComplete
    ensures r.reply.Blocked? || r.reply == Returned(())
  {
    if !s.dryComplete then Step(Blocked, s) else Step(Returned(()), s)
  }

  datatype Event = WashUpdate | DryUpdate

  function Apply(s: Cycle, e: Event): Cycle {
    match e
    case WashUpdate => Wash(s).post
    case DryUpdate => Dry(s).post
  }

  function ApplyAll(s: Cycle, es: seq<Event>): Cycle
    decreases |es|
  {
    if |es| == 0 then s else ApplyAll(Apply(s, es[0]), es[1..])
  }

  /** From any state where drying implies washing: it still does, and no flag is ever reset. */
  lemma {:induction false} DryImpliesWash(s: Cycle, es: seq<Event>)
    requires s.dryComplete ==> s.washComplete
    ensures var t := ApplyAll(s, es);
              && (t.dryComplete ==> t.washComplete)
              && (s.washComplete ==> t.washComplete)
              && (s.dryComplete ==> t.dryComplete)
    decreases |es|
  {
    if |es| > 0 {
      DryImpliesWash(Apply(s, es[0]), es[1..]);
    }
  }

  /** `run` has finished only if both updates have run. */
  lemma RunEndsAfterBoth(es: seq<Event>)
    ensures Run(ApplyAll(Init(), es)).reply.Returned? ==> WashUpdate in es && DryUpdate in es
  {
    DryImpliesWash(Init(), es);
    FlagsNeedEvents(Init(), es);
  }

  lemma {:induction false} FlagsNeedEvents(s: Cycle, es: seq<Event>)
    ensures ApplyAll(s, es).washComplete ==> s.washComplete || WashUpdate in es
    ensures ApplyAll(s, es).dryComplete ==> s.dryComplete || DryUpdate in es
    decreases |es|
  {
    if |es| > 0 {
      FlagsNeedEvents(Apply(s, es[0]), es[1..]);
      assert es == [es[0]] + es[1..];
    }
  }
}
