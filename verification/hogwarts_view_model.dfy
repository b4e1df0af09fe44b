/**
  The state controller of the app: the state record, the three updates made while
  the one fetch runs, the construction-time fetch, and the per-index lookup.

  The network call is not modelled; it enters as a `FetchOutcome`, either the list
  the service returned or the exception it threw (whose message may be absent).
 */
module HogwartsViewModel {

  import opened Wrappers
  import opened HogwartsData

  /** Everything the screen shows: the list, whether a fetch is running, and the last error text. */
  datatype HogwartsState = HogwartsState(
    characters: seq<HogwartsDataItem>,
    loading: bool,
    error: Option<string>)

  /** The display projection of one character. */
  datatype CharacterDetails = CharacterDetails(name: string, image: string, actor: string)

  /** What the call to the character service ends in. */
  datatype FetchOutcome =
    | Fetched(list: seq<HogwartsDataItem>)
    | Thrown(message: Option<string>)

  /** The state built with every default argument of the record. */
  function DefaultState(): (s: HogwartsState)
    ensures s.characters == []
    ensures !s.loading
    ensures s.error == None
  {
    HogwartsState([], false, None)
  }

  /**
    The text a string template gives for an exception message: the message itself,
    or the four letters `null` when the exception carries none. Either way it is a
    real string, so the error field is always set on failure.
   */
  function MessageText(message: Option<string>): (text: string)
    ensures message.Some? ==> text == message.value
    ensures message.None? ==> text == "null"
  {
    match message
    case Some(m) => m
    case None => "null"
  }

  /** An absent message and the message "null" become the same error text (a corollary of `MessageTextRecoversMessage`). */
  lemma MessageTextNotInjective()
    ensures MessageText(None) == MessageText(Some("null"))
  {
    MessageTextRecoversMessage(None);
    MessageTextRecoversMessage(Some("null"));
  }

  /**
    The text "null" comes from exactly an absent message or the message "null";
    any other text is the message itself, so it can be read back.
   */
  lemma MessageTextRecoversMessage(message: Option<string>)
    ensures MessageText(message) == "null" <==> message == None || message == Some("null")
    ensures MessageText(message) != "null" ==> message == Some(MessageText(message))
  {
  }

  /** The first update of a fetch: raise the loading flag, keep the rest. */
  function StartLoading(s: HogwartsState): (r: HogwartsState)
    ensures r.loading
    ensures r.characters == s.characters && r.error == s.error
  {
    s.(loading := true)
  }

  /** The update after the service returned: store its list, lower the flag; the error text is NOT cleared. */
  function Succeed(s: HogwartsState, list: seq<HogwartsDataItem>): (r: HogwartsState)
    ensures r.characters == list
    ensures !r.loading
    ensures r.error == s.error
  {
    s.(characters := list, loading := false)
  }

  /** The update after the call threw: lower the flag, record the text; the list is NOT reset. */
  function Fail(s: HogwartsState, text: string): (r: HogwartsState)
    ensures r.characters == s.characters
    ensures !r.loading
    ensures r.error == Some(text)
  {
    s.(loading := false, error := Some(text))
  }

  /** One run of the fetch from state `s`, the service ending in `outcome`. */
  function FetchCharacter(s: HogwartsState, outcome: FetchOutcome): (r: HogwartsState)
    ensures !r.loading
    ensures outcome.Fetched? ==> r == HogwartsState(outcome.list, false, s.error)
    ensures outcome.Thrown? ==> r == HogwartsState(s.characters, false, Some(MessageText(outcome.message)))
  {
    var started := StartLoading(s);
    match outcome
    case Fetched(list) => Succeed(started, list)
    case Thrown(message) => Fail(started, MessageText(message))
  }

  /** The state while the construction-time fetch is still waiting for the service. */
  function InFlight(): (s: HogwartsState)
    ensures s == HogwartsState([], true, None)
  {
    StartLoading(DefaultState())
  }

  /** The state once construction's single fetch has settled with `outcome`. */
  function Init(outcome: FetchOutcome): (s: HogwartsState)
    ensures !s.loading
    ensures outcome.Fetched? ==> s == HogwartsState(outcome.list, false, None)
    ensures outcome.Thrown? ==> s == HogwartsState([], false, Some(MessageText(outcome.message)))
  {
    FetchCharacter(DefaultState(), outcome)
  }

  /** Construction is StartLoading followed by exactly one of Succeed or Fail. */
  lemma InitIsOneFetch(outcome: FetchOutcome)
    ensures outcome.Fetched? ==> Init(outcome) == Succeed(InFlight(), outcome.list)
    ensures outcome.Thrown? ==> Init(outcome) == Fail(InFlight(), MessageText(outcome.message))
    ensures Init(outcome) != InFlight()
  {
  }

  /** Construction ends in the error state exactly when the service threw. */
  lemma InitErrorIffThrown(outcome: FetchOutcome)
    ensures Init(outcome).error.Some? <==> outcome.Thrown?
    ensures Init(outcome).characters != [] ==> outcome.Fetched?
  {
  }

  /** The raised flag is invisible once the fetch settles: settling overwrites it. */
  lemma StartLoadingOverwritten(s: HogwartsState, list: seq<HogwartsDataItem>, text: string)
    ensures Succeed(StartLoading(s), list) == Succeed(s, list)
    ensures Fail(StartLoading(s), text) == Fail(s, text)
    ensures StartLoading(StartLoading(s)) == StartLoading(s)
  {
  }

  /** A failed fetch after a successful one keeps the list already loaded. */
  lemma FailKeepsLoadedList(s: HogwartsState, list: seq<HogwartsDataItem>, message: Option<string>)
    ensures FetchCharacter(FetchCharacter(s, Fetched(list)), Thrown(message)).characters == list
  {
  }

  /** A successful fetch after a failed one keeps the stale error text. */
  lemma SucceedKeepsStaleError(s: HogwartsState, list: seq<HogwartsDataItem>, message: Option<string>)
    ensures FetchCharacter(FetchCharacter(s, Thrown(message)), Fetched(list)).error == Some(MessageText(message))
  {
  }

  /** The display projection of one character: the same three fields. */
  function Project(item: HogwartsDataItem): (d: CharacterDetails)
    ensures d.name == item.name && d.image == item.image && d.actor == item.actor
  {
    CharacterDetails(item.name, item.image, item.actor)
  }

  /** The record a projection was made from. */
  function Unproject(d: CharacterDetails): (item: HogwartsDataItem)
    ensures item.name == d.name && item.image == d.image && item.actor == d.actor
  {
    HogwartsDataItem(d.actor, d.image, d.name)
  }

  /** The projection loses nothing: both directions are inverses. */
  lemma ProjectRoundTrip(item: HogwartsDataItem, d: CharacterDetails)
    ensures Unproject(Project(item)) == item
    ensures Project(Unproject(d)) == d
    ensures Project(item) == d <==> item == Unproject(d)
  {
  }

  /**
    The details of character `index`, or `None` when `index` lies outside the list
    (a negative index included); the state is only read.
   */
  function GetCharactersDetails(s: HogwartsState, index: int): (r: Option<CharacterDetails>)
    ensures r.Some? <==> 0 <= index < |s.characters|
    ensures r.Some? ==> r.value.name == s.characters[index].name
    ensures r.Some? ==> r.value.image == s.characters[index].image
    ensures r.Some? ==> r.value.actor == s.characters[index].actor
  {
    if 0 <= index < |s.characters| then Some(Project(s.characters[index])) else None
  }

  /** After a successful construction, the lookup reads exactly the fetched list. */
  lemma LookupAfterInit(list: seq<HogwartsDataItem>, index: int)
    ensures GetCharactersDetails(Init(Fetched(list)), index).Some? <==> 0 <= index < |list|
    ensures 0 <= index < |list| ==>
      GetCharactersDetails(Init(Fetched(list)), index) == Some(Project(list[index]))
  {
  }

  /** After a failed construction there is nothing to look up. */
  lemma LookupAfterFailedInit(message: Option<string>, index: int)
    ensures GetCharactersDetails(Init(Thrown(message)), index) == None
  {
  }
}
