/**
 * A workflow that rejects a second update with the same update ID, and carries the set of
 * IDs it has seen through continue-as-new. `__init__` starts every run with an empty set
 * and only `run`'s first line adopts the carried one, so an update handled before that line
 * checks against the empty set and its ID is then overwritten.
 */
module UpdateDedup {
  import opened Common
  import opened Seqs

  datatype DedupState = DedupState(updateIds: set<string>)

  /** `__init__`: every run's workflow object starts with an empty set. */
  function Init(): (s: DedupState)
    ensures forall id :: id !in s.updateIds
  {
    DedupState({})
  }

  /** `run`'s first line: `update_ids or set()` (an empty set is falsy, giving an equal set). */
  function Start(updateIds: Option<set<string>>): (s: DedupState)
    ensures updateIds.Some? ==> s.updateIds == updateIds.value
    ensures updateIds.None? ==> s.updateIds == {}
  {
    DedupState(if updateIds.Some? && updateIds.value != {} then updateIds.value else {})
  }

  function DuplicateError(id: string): string {
    "duplicate update ID: " + id
  }

  /** `my_update`, called with update ID `id`. */
  function MyUpdate(s: DedupState, id: string): (r: Step<DedupState, string>)
    ensures r.reply.Failed? <==> id in s.updateIds
    ensures r.reply.Failed? ==> r.reply.error == DuplicateError(id) && r.post == s
    ensures r.reply.Failed? || r.reply.Returned?
    ensures r.reply.Returned? ==> r.reply.value == id && r.post.updateIds == s.updateIds + {id}
  {
    if id in s.updateIds then Step(Failed(DuplicateError(id)), s)
    else Step(Returned(id), DedupState(s.updateIds + {id}))
  }

  /** The main loop: waits for the server's suggestion, then continues as new with the set. */
  function MainStep(s: DedupState, suggested: bool): (r: Step<DedupState, set<string>>)
    ensures r.post == s
    ensures r.reply.Blocked? <==> !suggested
    ensures r.reply.Returned? <==> suggested
    ensures r.reply.Returned? ==> r.reply.value == s.updateIds
  {
    if !suggested then Step(Blocked, s) else Step(Returned(s.updateIds), s)
  }

  /**
   * One run of the workflow: the workflow object, the input `run` will be (or was) called
   * with, and whether `run` has executed its first line yet.
   */
  datatype Instance = Instance(wf: DedupState, input: Option<set<string>>, running: bool)

  /** A run created with `input`, before `run` has begun. */
  function Fresh(input: Option<set<string>>): Instance {
    Instance(Init(), input, false)
  }

  /**
   * Every event, across runs: an update, `run` reaching its first line, and the main loop's
   * continue-as-new (which starts a fresh run with the current set as its input).
   */
  datatype Event = Update(id: string) | RunBegins | ContinueAsNew

  function Apply(i: Instance, e: Event): Instance {
    match e
    case Update(id) => i.(wf := MyUpdate(i.wf, id).post)
    case RunBegins => if i.running then i else Instance(Start(i.input), i.input, true)
    case ContinueAsNew => if i.running then Fresh(Some(MainStep(i.wf, true).reply.value)) else i
  }

  function ApplyAll(i: Instance, es: seq<Event>): Instance
    decreases |es|
  {
    if |es| == 0 then i else ApplyAll(Apply(i, es[0]), es[1..])
  }

  /**
   * The IDs the workflow has committed to remembering: the current set once `run` has
   * begun, and otherwise the set the run was handed.
   */
  function Durable(i: Instance): set<string> {
    if i.running then i.wf.updateIds else Start(i.input).updateIds
  }

  /** The IDs of the updates that returned while `run` had begun, in order. */
  function RecordedIds(i: Instance, es: seq<Event>): seq<string>
    decreases |es|
  {
    if |es| == 0 then []
    else
      var rest := RecordedIds(Apply(i, es[0]), es[1..]);
      match es[0]
      case Update(id) => if i.running && MyUpdate(i.wf, id).reply.Returned? then [id] + rest else rest
      case RunBegins => rest
      case ContinueAsNew => rest
  }

  lemma ApplyDurable(i: Instance, e: Event)
    ensures e.Update? && i.running && MyUpdate(i.wf, e.id).reply.Returned? ==>
              e.id !in Durable(i) && Durable(Apply(i, e)) == Durable(i) + {e.id}
    ensures !(e.Update? && i.running && MyUpdate(i.wf, e.id).reply.Returned?) ==>
              Durable(Apply(i, e)) == Durable(i)
  {
  }

  /**
   * Across any number of runs, the remembered set is the starting one plus exactly the IDs
   * returned while `run` had begun; none of those is returned twice, and none that was
   * already remembered is returned.
   */
  lemma {:induction false} SetIsReturnedIds(i: Instance, es: seq<Event>)
    ensures Durable(ApplyAll(i, es)) == Durable(i) + set x | x in RecordedIds(i, es)
    ensures Distinct(RecordedIds(i, es))
    ensures forall x :: x in RecordedIds(i, es) ==> x !in Durable(i)
    decreases |es|
  {
    if |es| > 0 {
      var i1 := Apply(i, es[0]);
      ApplyDurable(i, es[0]);
      SetIsReturnedIds(i1, es[1..]);
    }
  }

  /**
   * After continue-as-new, once the new run has begun, an ID returned in an earlier run is
   * rejected as a duplicate.
   */
  lemma DuplicateAcrossRuns(i: Instance, id: string, between: seq<Event>)
    requires i.running && MyUpdate(i.wf, id).reply.Returned?
    requires ApplyAll(Apply(i, Update(id)), between).running
    ensures MyUpdate(ApplyAll(Apply(i, Update(id)), between).wf, id).reply == Failed(DuplicateError(id))
  {
    SetIsReturnedIds(Apply(i, Update(id)), between);
  }

  /** The carried ID is accepted again by an update handled before the new run has begun. */
  lemma EarlyUpdateAcceptsDuplicate(carried: set<string>, id: string)
    requires id in carried
    ensures MyUpdate(Fresh(Some(carried)).wf, id).reply == Returned(id)
    ensures Durable(Fresh(Some(carried))) == carried
  {
  }

  /**
   * An ID returned before `run` has begun is forgotten by its first line, so the same run
   * returns it a second time.
   */
  lemma EarlyUpdateForgotten(id: string)
    ensures var i := Apply(Fresh(None), Update(id));
            && MyUpdate(Fresh(None).wf, id).reply == Returned(id)
            && MyUpdate(Apply(i, RunBegins).wf, id).reply == Returned(id)
  {
  }
}
