/**
 * `GreetingWorkflow`, the introductory message-passing sample, in its two synchronous
 * versions. They differ only in the order in which `get_languages` lists the supported
 * languages: the introduction lists the keys of `greetings` in insertion order, the
 * documentation sample filters `Language` in declaration order.
 */
module Greeting {
  import opened Common
  import opened Seqs
  import opened PyDict

  /** `Language(IntEnum)`, in declaration order (values 1..5). */
  datatype Language = Chinese | English | French | Spanish | Portuguese

  const AllLanguages: seq<Language> := [Chinese, English, French, Spanish, Portuguese]

  /** `language.name`. */
  function Name(l: Language): string {
    match l
    case Chinese => "CHINESE"
    case English => "ENGLISH"
    case French => "FRENCH"
    case Spanish => "SPANISH"
    case Portuguese => "PORTUGUESE"
  }

  lemma AllLanguagesComplete()
    ensures forall l :: l in AllLanguages
    ensures Distinct(AllLanguages)
  {
    forall l ensures l in AllLanguages {
      match l
      case Chinese => assert AllLanguages[0] == l;
      case English => assert AllLanguages[1] == l;
      case French => assert AllLanguages[2] == l;
      case Spanish => assert AllLanguages[3] == l;
      case Portuguese => assert AllLanguages[4] == l;
    }
  }

  datatype Variant = Introduction | DocsSample

  datatype GreetingState = GreetingState(
    approved: bool,
    approverName: Option<string>,
    language: Language,
    greetings: Dict<Language, string>)

  const HelloEnglish := "Hello, world"
  const HelloChinese := "\U{4F60}\U{597D}\U{FF0C}\U{4E16}\U{754C}"

  /** `__init__`: English is selected, and English and Chinese have greetings, in that order. */
  function Init(): (s: GreetingState)
    ensures !s.approved && s.approverName.None? && s.language == English
    ensures Keys(s.greetings) == [English, Chinese] && UniqueKeys(s.greetings)
    ensures Get(s.greetings, English) == Some(HelloEnglish) && Get(s.greetings, Chinese) == Some(HelloChinese)
  {
    GreetingState(false, None, English, [(English, HelloEnglish), (Chinese, HelloChinese)])
  }

  /** `validate_language`: only a language with a greeting may be selected. */
  function ValidateLanguage(s: GreetingState, l: Language): (r: Result<()>)
    ensures r.Ok? <==> Get(s.greetings, l).Some?
    ensures r.Err? ==> r.error == Name(l) + " is not supported"
  {
    if l !in Keys(s.greetings) then Err(Name(l) + " is not supported") else Ok(())
  }

  /** The `set_language` update: the validator first, then the swap. */
  function SetLanguage(s: GreetingState, l: Language): (r: Step<GreetingState, Language>)
    ensures r.reply.Rejected? <==> Get(s.greetings, l).None?
    ensures r.reply.Rejected? ==> r.reply.reason == Name(l) + " is not supported" && r.post == s
    ensures r.reply.Rejected? || r.reply.Returned?
    ensures r.reply.Returned? ==> r.reply.value == s.language && r.post == s.(language := l)
  {
    match ValidateLanguage(s, l)
    case Err(e) => Step(Rejected(e), s)
    case Ok(_) => Step(Returned(s.language), s.(language := l))
  }

  /** Setting the language back to what `set_language` returned undoes it. */
  lemma SetLanguageUndo(s: GreetingState, l: Language)
    requires Get(s.greetings, s.language).Some?
    requires SetLanguage(s, l).reply.Returned?
    ensures var r := SetLanguage(s, l);
            SetLanguage(r.post, r.reply.value) == Step(Returned(l), s)
  {
  }

  /** The `approve` signal. */
  function Approve(s: GreetingState, name: string): (r: GreetingState)
    ensures r.approved && r.approverName == Some(name)
    ensures r.language == s.language && r.greetings == s.greetings
  {
    s.(approved := true, approverName := Some(name))
  }

  /** The `get_languages` query. */
  function GetLanguages(v: Variant, s: GreetingState, includeUnsupported: bool): (r: seq<Language>)
    ensures includeUnsupported ==> r == AllLanguages
    ensures !includeUnsupported ==> forall l :: l in r <==> Get(s.greetings, l).Some?
    ensures !includeUnsupported && v == DocsSample ==> IsSubsequence(r, AllLanguages)
    ensures !includeUnsupported && v == Introduction ==> r == Keys(s.greetings)
  {
    if includeUnsupported then AllLanguages
    else if v == Introduction then Keys(s.greetings)
    else
      AllLanguagesComplete();
      FilterIn(AllLanguages, Keys(s.greetings))
  }

  /** The `get_language` query. */
  function GetLanguage(s: GreetingState): (r: Language)
    ensures r == s.language
    ensures ValidateLanguage(s, s.language).Ok? ==> ValidateLanguage(s, r).Ok?
  {
    s.language
  }

  /** In the initial state the two versions list the same languages in opposite orders. */
  lemma QueryOrderDiffers()
    ensures GetLanguages(Introduction, Init(), false) == [English, Chinese]
    ensures GetLanguages(DocsSample, Init(), false) == [Chinese, English]
  {
    var greeted := Keys(Init().greetings);
    var langs := AllLanguages;
    var rest := FilterIn(langs[2..], greeted);
    assert langs[2..] == [French, Spanish, Portuguese] && greeted == [English, Chinese];
    assert langs[1..][1..] == langs[2..];
    assert langs[1..] == [English] + langs[2..];
  }

  /** `run`: waits for approval, then returns the selected language's greeting. */
  function Run(s: GreetingState): (r: Step<GreetingState, string>)
    ensures r.post == s
    ensures r.reply.Blocked? <==> !s.approved
    ensures r.reply.Stuck? <==> s.approved && Get(s.greetings, s.language).None?
    ensures r.reply.Returned? ==> Get(s.greetings, s.language) == Some(r.reply.value)
  {
    if !s.approved then Step(Blocked, s)
    else match Get(s.greetings, s.language)
      case None => Step(Stuck("KeyError"), s)
      case Some(g) => Step(Returned(g), s)
  }

  // ---------------------------------------------------------------------------------------
  // Reachable states.

  datatype Event = SetLang(l: Language) | ApproveBy(name: string)

  function Apply(s: GreetingState, e: Event): GreetingState {
    match e
    case SetLang(l) => SetLanguage(s, l).post
    case ApproveBy(name) => Approve(s, name)
  }

  function ApplyAll(s: GreetingState, es: seq<Event>): GreetingState
    decreases |es|
  {
    if |es| == 0 then s else ApplyAll(Apply(s, es[0]), es[1..])
  }

  /** The greetings never change, and the selected language always has one. */
  lemma {:induction false} LanguageAlwaysGreeted(s: GreetingState, es: seq<Event>)
    requires Get(s.greetings, s.language).Some?
    ensures ApplyAll(s, es).greetings == s.greetings
    ensures Get(s.greetings, ApplyAll(s, es).language).Some?
    decreases |es|
  {
    if |es| > 0 {
      LanguageAlwaysGreeted(Apply(s, es[0]), es[1..]);
    }
  }

  /** So, once approved, `run` returns the greeting of the selected language, never a `KeyError`. */
  lemma RunReturnsGreeting(es: seq<Event>)
    ensures var s := ApplyAll(Init(), es);
              s.approved ==> Run(s).reply.Returned?
  {
    LanguageAlwaysGreeted(Init(), es);
  }
}
