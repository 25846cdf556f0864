/**
 * The asynchronous `GreetingWorkflow` of the message-passing documentation: `set_language`
 * is an async update that, for a language without a greeting, asks the
 * `call_greeting_service` activity for one and stores it.
 *
 * The activity's answer is a parameter of the update, so the model states what happens for
 * every answer; `CallGreetingService` is the activity itself.
 */
module AsyncGreeting {
  import opened Common
  import opened Seqs
  import opened PyDict

  /** `Language(IntEnum)`, in declaration order (values 1..6). */
  datatype Language = Arabic | Chinese | English | French | Hindi | Spanish

  const AllLanguages: seq<Language> := [Arabic, Chinese, English, French, Hindi, Spanish]

  function Name(l: Language): string {
    match l
    case Arabic => "Arabic"
    case Chinese => "Chinese"
    case English => "English"
    case French => "French"
    case Hindi => "Hindi"
    case Spanish => "Spanish"
  }

  lemma AllLanguagesComplete()
    ensures forall l :: l in AllLanguages
    ensures Distinct(AllLanguages)
  {
    forall l ensures l in AllLanguages {
      match l
      case Arabic => assert AllLanguages[0] == l;
      case Chinese => assert AllLanguages[1] == l;
      case English => assert AllLanguages[2] == l;
      case French => assert AllLanguages[3] == l;
      case Hindi => assert AllLanguages[4] == l;
      case Spanish => assert AllLanguages[5] == l;
    }
  }

  /** The `call_greeting_service` activity: its table has an entry for every language. */
  function CallGreetingService(l: Language): (g: Option<string>)
    ensures g.Some?
  {
    match l
    case Arabic => Some("\U{0645}\U{0631}\U{062D}\U{0628}\U{0627} \U{0628}\U{0627}\U{0644}\U{0639}\U{0627}\U{0644}\U{0645}")
    case Chinese => Some("\U{4F60}\U{597D}\U{FF0C}\U{4E16}\U{754C}!")
    case English => Some("Hello, world!")
    case French => Some("Bonjour, monde!")
    case Hindi => Some("\U{0928}\U{092E}\U{0938}\U{094D}\U{0924}\U{0947} \U{0926}\U{0941}\U{0928}\U{093F}\U{092F}\U{093E}!")
    case Spanish => Some("\U{00A1}Hola mundo!")
  }

  datatype GreetingState = GreetingState(
    approved: bool,
    approverName: Option<string>,
    language: Language,
    greetings: Dict<Language, string>)

  function Init(): (s: GreetingState)
    ensures !s.approved && s.approverName.None? && s.language == English
    ensures Keys(s.greetings) == [English, Chinese] && UniqueKeys(s.greetings)
    ensures Get(s.greetings, English) == CallGreetingService(English)
    ensures Get(s.greetings, Chinese) == CallGreetingService(Chinese)
  {
    GreetingState(false, None, English, [(English, "Hello, world!"), (Chinese, "\U{4F60}\U{597D}\U{FF0C}\U{4E16}\U{754C}!")])
  }

  function UnsupportedError(l: Language): string {
    "Greeting service does not support " + Name(l)
  }

  /**
   * The `set_language` update; `lookup` is what `call_greeting_service` returns, consulted
   * only when the language has no greeting yet.
   */
  function SetLanguage(s: GreetingState, l: Language, lookup: Option<string>): (r: Step<GreetingState, Language>)
    requires UniqueKeys(s.greetings)
    ensures UniqueKeys(r.post.greetings)
    ensures r.reply.Failed? <==> Get(s.greetings, l).None? && lookup.None?
    ensures r.reply.Failed? ==> r.reply.error == UnsupportedError(l) && r.post == s
    ensures r.reply.Failed? || r.reply.Returned?
    ensures Get(s.greetings, l).Some? ==> r == Step(Returned(s.language), s.(language := l))
    ensures Get(s.greetings, l).None? && lookup.Some? ==>
              && r.reply == Returned(s.language)
              && r.post.language == l
              && r.post.approved == s.approved && r.post.approverName == s.approverName
              && Keys(r.post.greetings) == Keys(s.greetings) + [l]
              && Get(r.post.greetings, l) == lookup
              && forall k :: k != l ==> Get(r.post.greetings, k) == Get(s.greetings, k)
  {
    if l in Keys(s.greetings) then Step(Returned(s.language), s.(language := l))
    else match lookup
      case None => Step(Failed(UnsupportedError(l)), s)
      case Some(g) => Step(Returned(s.language), s.(greetings := Put(s.greetings, l, g), language := l))
  }

  /** With the real activity, `set_language` never fails. */
  lemma SetLanguageWithServiceSucceeds(s: GreetingState, l: Language)
    requires UniqueKeys(s.greetings)
    ensures SetLanguage(s, l, CallGreetingService(l)).reply == Returned(s.language)
    ensures Get(SetLanguage(s, l, CallGreetingService(l)).post.greetings, l).Some?
  {
  }

  function Approve(s: GreetingState, name: string): (r: GreetingState)
    ensures r.approved && r.approverName == Some(name)
    ensures r.language == s.language && r.greetings == s.greetings
  {
    s.(approved := true, approverName := Some(name))
  }

  /** The `get_languages` query: all six, or the greeted ones in declaration order. */
  function GetLanguages(s: GreetingState, supportedOnly: bool): (r: seq<Language>)
    ensures !supportedOnly ==> r == AllLanguages
    ensures supportedOnly ==> IsSubsequence(r, AllLanguages) && forall l :: l in r <==> Get(s.greetings, l).Some?
  {
    AllLanguagesComplete();
    if supportedOnly then FilterIn(AllLanguages, Keys(s.greetings)) else AllLanguages
  }

  /**
   * `run`: waits for approval and then for every handler to finish (`allHandlersFinished`),
   * and returns the greeting of the selected language.
   */
  function Run(s: GreetingState, allHandlersFinished: bool): (r: Step<GreetingState, string>)
    ensures r.post == s
    ensures r.reply.Blocked? <==> !(s.approved && allHandlersFinished)
    ensures r.reply.Stuck? <==> s.approved && allHandlersFinished && Get(s.greetings, s.language).None?
    ensures r.reply.Returned? ==> Get(s.greetings, s.language) == Some(r.reply.value)
  {
    if !s.approved || !allHandlersFinished then Step(Blocked, s)
    else match Get(s.greetings, s.language)
      case None => Step(Stuck("KeyError"), s)
      case Some(g) => Step(Returned(g), s)
  }

  // ---------------------------------------------------------------------------------------
  // Reachable states.

  datatype Event = SetLang(l: Language, lookup: Option<string>) | ApproveBy(name: string)

  ghost predicate Inv(s: GreetingState) {
    UniqueKeys(s.greetings) && Get(s.greetings, s.language).Some?
  }

  function Apply(s: GreetingState, e: Event): (t: GreetingState)
    requires UniqueKeys(s.greetings)
    ensures UniqueKeys(t.greetings)
  {
    match e
    case SetLang(l, lookup) => SetLanguage(s, l, lookup).post
    case ApproveBy(name) => Approve(s, name)
  }

  /** Greetings are only ever added, never changed or removed, and the language stays greeted. */
  lemma ApplyGrows(s: GreetingState, e: Event)
    requires Inv(s)
    ensures Inv(Apply(s, e))
    ensures forall k :: Get(s.greetings, k).Some? ==> Get(Apply(s, e).greetings, k) == Get(s.greetings, k)
  {
  }

  function ApplyAll(s: GreetingState, es: seq<Event>): GreetingState
    requires UniqueKeys(s.greetings)
    decreases |es|
  {
    if |es| == 0 then s else ApplyAll(Apply(s, es[0]), es[1..])
  }

  lemma {:induction false} GreetingsOnlyGrow(s: GreetingState, es: seq<Event>)
    requires Inv(s)
    ensures Inv(ApplyAll(s, es))
    ensures forall k :: Get(s.greetings, k).Some? ==> Get(ApplyAll(s, es).greetings, k) == Get(s.greetings, k)
    decreases |es|
  {
    if |es| > 0 {
      ApplyGrows(s, es[0]);
      GreetingsOnlyGrow(Apply(s, es[0]), es[1..]);
    }
  }

  /** Once approved and with no handler running, `run` returns a greeting, never a `KeyError`. */
  lemma RunReturnsGreeting(es: seq<Event>)
    ensures Inv(Init())
    ensures var s := ApplyAll(Init(), es);
              s.approved ==> Run(s, true).reply.Returned?
  {
    GreetingsOnlyGrow(Init(), es);
  }
}
