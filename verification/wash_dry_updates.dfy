/**
 * `WashAndDryCycle` with two updates: `dry` waits until `wash` has recorded its results,
 * so the two run in order whichever arrives first.
 */
module WashDryUpdates {
  import opened Common

  datatype WashResults = WashResults(numItems: int)
  datatype DryResults = DryResults(numItems: int, moistureLevel: int)

  datatype Cycle = Cycle(washResults: Option<WashResults>, dryResults: Option<DryResults>)

  function Init(): Cycle {
    Cycle(None, None)
  }

  /** The `wash` update: records and returns the wash results. */
  function Wash(s: Cycle, numItems: int): (r: Step<Cycle, WashResults>)
    ensures r.reply == Returned(WashResults(numItems))
    ensures r.post.washResults == Some(WashResults(numItems)) && r.post.dryResults == s.dryResults
  {
    var w := WashResults(numItems);
    Step(Returned(w), s.(washResults := Some(w)))
  }

  /** The `dry` update: waits for washing, then dries as many items as were washed. */
  function Dry(s: Cycle): (r: Step<Cycle, DryResults>)
    ensures r.reply.Blocked? <==> s.washResults.None?
    ensures r.reply.Blocked? ==> r.post == s
    ensures r.reply.Blocked? || r.reply.Returned?
    ensures r.reply.Returned? ==>
              && r.reply.value == DryResults(s.washResults.value.numItems, 3)
              && r.post == s.(dryResults := Some(r.reply.value))
  {
    match s.washResults
    case None => Step(Blocked, s)
    case Some(w) =>
      var d := DryResults(w.numItems, 3);
      Step(Returned(d), s.(dryResults := Some(d)))
  }

  /** `run`: finishes once the dry results are set. */
  function Run(s: Cycle): (r: Step<Cycle, ()>)
    ensures r.post == s
    ensures r.reply.Blocked? <==> s.dryResults.None?
    ensures r.reply.Blocked? || r.reply == Returned(())
  {
    if s.dryResults.None? then Step(Blocked, s) else Step(Returned(()), s)
  }

  datatype Event = WashUpdate(numItems: int) | DryUpdate

  function Apply(s: Cycle, e: Event): Cycle {
    match e
    case WashUpdate(n) => Wash(s, n).post
    case DryUpdate => Dry(s).post
  }

  function ApplyAll(s: Cycle, es: seq<Event>): Cycle
    decreases |es|
  {
    if |es| == 0 then s else ApplyAll(Apply(s, es[0]), es[1..])
  }

  /** Drying has happened only after washing, and every drying reports moisture level 3. */
  ghost predicate Inv(s: Cycle) {
    s.dryResults.Some? ==> s.washResults.Some? && s.dryResults.value.moistureLevel == 3
  }

  lemma {:induction false} InvReachable(s: Cycle, es: seq<Event>)
    requires Inv(s)
    ensures Inv(ApplyAll(s, es))
    decreases |es|
  {
    if |es| > 0 {
      InvReachable(Apply(s, es[0]), es[1..]);
    }
  }

  /**
   * `app`: `dry` arrives first and waits; after `wash(10)` it completes with 10 items, and
   * then `run` finishes.
   */
  lemma DryBeforeWash()
    ensures Dry(Init()).reply.Blocked?
    ensures var s := Wash(Init(), 10).post;
              && Dry(s).reply == Returned(DryResults(10, 3))
              && Run(Dry(s).post).reply == Returned(())
  {
  }
}
