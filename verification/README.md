# Hogwarts character list — state controller model

The app fetches the character list of a public Harry Potter API once, when its view
model is created, and shows the characters as cards. The only logic in it is the view
model: a state record (character list, loading flag, error text), the three record
updates made while the one fetch runs, and a bounds-checked per-index lookup that
projects one character into the fields a card displays.

This project models that view model as immutable datatypes and pure functions:

- `wrappers.dfy` — `Option`, standing for Kotlin's nullable types.
- `hogwarts_data.dfy` — `HogwartsDataItem`, the record of one character.
- `hogwarts_view_model.dfy` — `HogwartsState`, `CharacterDetails`, the three updates
  (`StartLoading`, `Succeed`, `Fail`), one whole fetch (`FetchCharacter`), construction
  (`Init`), and the lookup (`GetCharactersDetails`).
- `rendering.dfy` — the list screen's loop over indices, the lookup's one caller.

The network call is a parameter: a `FetchOutcome` that is either the list the service
returned or the `Exception` it threw, whose message may be absent.

Each update is a `copy` of the current state. So a failed fetch keeps the list the state
already held, and a successful fetch does not clear `error`. From construction both fields
still hold their defaults, so construction ends in (empty list, off, message text) or
(list, off, no error).

`getCharactersDetails` is a pure read by construction here. `GetCharactersDetails` is a
function of the state value and returns only the details, so the state it was given is
the state afterwards.

## Model

| member | source | states |
|---|---|---|
| HogwartsViewModel.DefaultState | app/src/main/java/com/example/hogwartslegacy/viewModel/HogwartsViewModel.kt:95-99 | the state built from the record's defaults has an empty list, loading off and no error |
| HogwartsViewModel.MessageText | app/src/main/java/com/example/hogwartslegacy/viewModel/HogwartsViewModel.kt:62 | the error text is the exception message when there is one, and the string "null" when there is none, so it is always present |
| HogwartsViewModel.MessageTextNotInjective | app/src/main/java/com/example/hogwartslegacy/viewModel/HogwartsViewModel.kt:62 | an absent message and the message "null" give the same error text, so the state cannot tell them apart |
| HogwartsViewModel.MessageTextRecoversMessage | app/src/main/java/com/example/hogwartslegacy/viewModel/HogwartsViewModel.kt:62 | the error text is "null" exactly when the message is absent or is "null"; any other error text is the message itself |
| HogwartsViewModel.StartLoading | app/src/main/java/com/example/hogwartslegacy/viewModel/HogwartsViewModel.kt:52 | starting a fetch turns loading on and leaves the list and the error text unchanged |
| HogwartsViewModel.Succeed | app/src/main/java/com/example/hogwartslegacy/viewModel/HogwartsViewModel.kt:55-58 | a successful call stores exactly the fetched list and turns loading off; the error text is left as it was |
| HogwartsViewModel.Fail | app/src/main/java/com/example/hogwartslegacy/viewModel/HogwartsViewModel.kt:59-63 | a failed call turns loading off and stores the error text; the list is left as it was |
| HogwartsViewModel.FetchCharacter | app/src/main/java/com/example/hogwartslegacy/viewModel/HogwartsViewModel.kt:50-66 | one fetch from any state ends with loading off; on success the state is (list, off, previous error); on failure it is (previous list, off, message text) |
| HogwartsViewModel.InFlight | app/src/main/java/com/example/hogwartslegacy/viewModel/HogwartsViewModel.kt:26-34 | while construction's fetch waits for the service, the state is (empty list, loading, no error) |
| HogwartsViewModel.Init | app/src/main/java/com/example/hogwartslegacy/viewModel/HogwartsViewModel.kt:26-34 | after construction's single fetch, the state is (list, off, no error) on success and (empty list, off, message text) on failure; loading is off either way |
| HogwartsViewModel.InitIsOneFetch | app/src/main/java/com/example/hogwartslegacy/viewModel/HogwartsViewModel.kt:32-34 | construction is the start-loading update followed by exactly one of the success or failure updates, and it never stays in the in-flight state |
| HogwartsViewModel.InitErrorIffThrown | app/src/main/java/com/example/hogwartslegacy/viewModel/HogwartsViewModel.kt:32-34 | after construction an error text is present if and only if the service threw, and a non-empty list implies the call succeeded |
| HogwartsViewModel.StartLoadingOverwritten | app/src/main/java/com/example/hogwartslegacy/viewModel/HogwartsViewModel.kt:52-63 | the loading flag raised at the start is overwritten by either settling update, and raising it twice is the same as once |
| HogwartsViewModel.FailKeepsLoadedList | app/src/main/java/com/example/hogwartslegacy/viewModel/HogwartsViewModel.kt:60-63 | a failed fetch run after a successful one keeps the loaded list, because the update copies the state |
| HogwartsViewModel.SucceedKeepsStaleError | app/src/main/java/com/example/hogwartslegacy/viewModel/HogwartsViewModel.kt:55-58 | a successful fetch run after a failed one keeps the earlier error text, because the update does not clear it |
| HogwartsViewModel.Project | app/src/main/java/com/example/hogwartslegacy/viewModel/HogwartsViewModel.kt:77-81 | the details of a character carry its name, image and actor unchanged |
| HogwartsViewModel.ProjectRoundTrip | app/src/main/java/com/example/hogwartslegacy/viewModel/HogwartsViewModel.kt:77-81 | the projection and its inverse undo each other, so the details determine the character record and the record determines the details |
| HogwartsViewModel.GetCharactersDetails | app/src/main/java/com/example/hogwartslegacy/viewModel/HogwartsViewModel.kt:75-83 | the lookup answers if and only if 0 <= index < size, with the name, image and actor of that character; any other index, negative ones included, gives none instead of failing |
| HogwartsViewModel.LookupAfterInit | app/src/main/java/com/example/hogwartslegacy/viewModel/HogwartsViewModel.kt:32-34 | after a successful construction the lookup answers exactly for the indices of the fetched list, with the projection of that entry |
| HogwartsViewModel.LookupAfterFailedInit | app/src/main/java/com/example/hogwartslegacy/viewModel/HogwartsViewModel.kt:59-63 | after a failed construction every lookup gives none |
| Rendering.CardsFor | app/src/main/java/com/example/hogwartslegacy/composables/Name.kt:63-66 | asking the lookup for every index from 0 to the size yields one card per character, in order, from which each character record is recovered exactly |

## Left out

- The HTTP client (`service/ApiService.kt`): the Retrofit interface, the base URL and the Gson decoding. The call enters the model only as a `FetchOutcome`: a list or an exception message.
- GetCharactersDetails, CardsFor: the model takes the decoded list at its declared Kotlin type, with no null entries and no null fields. Gson fills objects by reflection and does not enforce that type. For a response `[null]`, `getOrNull(0)` gives null although 0 is in bounds, so the lookup answers none and no card is drawn. For a response `[{"name":"Harry"}]`, `actor` and `image` are null and building `CharacterDetails` throws a `NullPointerException`. The model answers with the details in both cases.
- `viewModelScope.launch` and coroutine suspension. The fetch is one sequential step.
- Cancellation when the view model is cleared. A cancelled call resumes with a `CancellationException`, which the `catch` of `Exception` takes, so a cancelled fetch ends as a `Fail` update, that is a `Thrown` outcome. The model does not fix which message that outcome carries.
- `mutableStateOf` and `State` observability. The state is a plain value passed to and returned from each update.
- The Compose layout in `composables/Name.kt`: the progress indicator, the choice between loading, error and list, the images and the cards. Only the loop that asks the lookup for each index is modelled.
- Kotlin's 32-bit `Int` for the lookup index. The model takes any integer, which includes every 32-bit value. List sizes are unbounded in the model.
- The kind of exception caught. Every `Exception` the call can throw is modelled the same way, by its optional message.
- FetchCharacter, Init: the promise that loading ends off holds only when the call returns or throws an `Exception`. A `Throwable` that is not an `Exception`, such as an `Error` like `OutOfMemoryError` or an `ExceptionInInitializerError` from first use of the service object, is not caught. It escapes the coroutine and leaves the state with loading on. `FetchOutcome` has no case for it.
