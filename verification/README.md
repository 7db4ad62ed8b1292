# HOT or NOT — the Home page's interaction state machine

The Home page lets a user pick an image, shows a local preview of it, sends
it to an analysis service and shows the verdict. All of its logic lives in
two handlers of the `Home` component, which drive five pieces of state:
`selectedFile`, `preview`, `result`, `loading` and `error`.

This project models that logic in Dafny:

- `wrappers.dfy` — `Option`, for the component's nullable state.
- `analysis.dfy` (module `Analysis`) — the values exchanged with the outside
  world (`File`, `AnalysisResult`, and `Outcome`, the four ways a submission
  can end) and the pure derivations the page makes from them: the error
  message a failure produces, and the verdict label and colour.
- `home_state.dfy` (module `HomeState`) — the state machine as values: one
  `Step` per event, `Run` over a sequence of events, the invariant the code
  keeps, and lemmas that say which event last wrote each field.
- `home.dfy` (module `HomeComponent`) — class `Home`, with the five fields
  updated in place by one method per event. Each method's postcondition ties
  its new state to `HomeState.Step`, so every run lemma applies to the class.

Each asynchronous handler is split at its suspension point. `SelectFile`
issues a preview read, and `PreviewReadCompletes` (or `PreviewReadFails`)
finishes it later. `SubmitStart` sends a request, and `SubmitCompletes` settles
it with an `Outcome`. Events may arrive in any order the world allows. Two
ghost records say what the world still owes: a multiset of reads under way
and a count of submissions awaiting a response. They only limit which
completions can happen; the handlers never read them.

`Home.Valid()` is a safety invariant in its own right: `loading` only while
a file is selected and a response is owed, and a preview, a read or a
submission only after a selection. `HomeState.RunInv` proves it over every
sequence of events the world can deliver.

The model follows the code where it differs from what a careful controller
would do:

- `result` is not cleared when a submission starts or fails. A success
  followed by a failure leaves `result` and `error` both set, so they are not
  mutually exclusive (`ResultSurvivesLaterFailure`).
- A success does not clear `error`. If an overlapping submission failed after
  this one started, its message stays beside the new result
  (`OverlappingFailureSurvivesSuccess`).
- A new selection does not clear `preview`. The old preview stays until a
  read completes.
- Reads are not tagged with their selection. A read for an older file that
  completes last overwrites the preview of the newer one
  (`StaleReadOverwritesPreview`).
- A second submit while one is under way is not rejected. The first
  settlement clears `loading` while a response is still owed
  (`ReentrantCompletionClearsLoading`).
- A non-ok response whose body does not parse as JSON never reaches the
  `"Failed to analyze image"` fallback. `response.json()` throws first, so
  the message is the parser's (`ThrownError`). The fallback appears only for
  a parsed body whose `error` field is missing or empty.

## Model

| member | source | states |
|---|---|---|
| `Analysis.NotOkMessage` | guessnumber/src/app/page.tsx:49 | the message for a non-ok response is never empty; it is the body's `error` when that is a non-empty string, and otherwise `"Failed to analyze image"` |
| `Analysis.Truthy` | guessnumber/src/app/page.tsx:49 | the JavaScript truthiness of `data.error` as a string-or-absent value: false exactly for an absent field and for the empty string |
| `Analysis.Raised` | guessnumber/src/app/page.tsx:39-52 | what reaches the catch: a non-ok response raises an `Error` with a non-empty message, a thrown `Error` arrives unchanged, and only a thrown non-`Error` arrives as a non-`Error` |
| `Analysis.CaughtMessage` | guessnumber/src/app/page.tsx:53 | the catch keeps an `Error`'s message and turns anything else into `"An error occurred"`; its message is empty, so the error region stays hidden, exactly for an `Error` thrown with an empty message |
| `Analysis.FailureMessage` | guessnumber/src/app/page.tsx:49-53 | the error priority for each failure: the body's non-empty `error`, else `"Failed to analyze image"`; a thrown `Error`'s message; `"An error occurred"` for a thrown non-`Error` |
| `Analysis.FailureMessageVisible` | guessnumber/src/app/page.tsx:53 | a failure leaves an empty, unrendered `error` exactly when an `Error` with an empty message was thrown |
| `Analysis.FailureMessageExamples` | guessnumber/src/app/page.tsx:49-53 | a 500 with `error: "model unavailable"` gives that text; a missing or empty `error` gives the fallback; a thrown `"timeout"` gives `"timeout"`; a thrown non-`Error` gives `"An error occurred"` |
| `Analysis.VerdictLabel` | guessnumber/src/app/page.tsx:143 | the heading is the HOT label iff the verdict is exactly `"HOT"`, and the NOT label otherwise |
| `Analysis.VerdictColour` | guessnumber/src/app/page.tsx:140 | the heading is yellow iff the verdict is exactly `"HOT"`, and grey otherwise |
| `Analysis.LabelAndColourAgree` | guessnumber/src/app/page.tsx:139-143 | the heading's label and colour always show the same verdict |
| `HomeState.StepFrame` | guessnumber/src/app/page.tsx:18-57 | what one event of either handler (`HomeState.Step`) may change: only a change event with a file moves `selectedFile`, and never back to null; only an `onload` moves `preview`; `result` changes only to null by a selection or to a success's data; every completion leaves `loading` false; a submit with nothing selected changes nothing; `loading` is raised only by a start, which clears `error` |
| `HomeState.InitialInv` | guessnumber/src/app/page.tsx:8-16 | the initial state (all null, `loading` false) satisfies the invariant |
| `HomeState.StepInv` | guessnumber/src/app/page.tsx:18-57 | every deliverable event keeps the invariant: `loading` only with a selection and a submission awaiting a response; a preview, a read or a submission only after a selection |
| `HomeState.RunInv` | guessnumber/src/app/page.tsx:18-57 | the invariant holds after any sequence of deliverable events |
| `HomeState.SelectionUnchanged` | guessnumber/src/app/page.tsx:19-21 | without a change event carrying a file, `selectedFile` never changes; an empty `files` list and all submit and read events leave it alone |
| `HomeState.SelectionIsLatest` | guessnumber/src/app/page.tsx:19-21 | `selectedFile` is the file of the latest change event that carried one |
| `HomeState.SelectedIffChosen` | guessnumber/src/app/page.tsx:19-21 | `selectedFile` is set iff a file was chosen before or during the run; once set it never becomes null again |
| `HomeState.ResultUnchanged` | guessnumber/src/app/page.tsx:18-57 | without a selection or a successful completion, `result` never changes; starts and failures keep the previous result |
| `HomeState.ResultIsLatest` | guessnumber/src/app/page.tsx:18-57 | `result` is set by the latest selection (null) or success (that response's data, whole), whichever came last |
| `HomeState.PreviewUnchanged` | guessnumber/src/app/page.tsx:26-28 | without a completed read, `preview` never changes; a new selection does not clear it |
| `HomeState.PreviewIsLatestRead` | guessnumber/src/app/page.tsx:26-28 | `preview` is the data URL of the read that completed last, whichever file it was for |
| `HomeState.LoadingIsLatest` | guessnumber/src/app/page.tsx:33-56 | `loading` is true iff the latest guarded submit start or completion is a start; every completion, whatever its outcome, leaves it false |
| `HomeState.LoadingUnchanged` | guessnumber/src/app/page.tsx:33-56 | `loading` changes only through a submit that passes the guard or a completion; a submit with no file leaves it alone |
| `HomeState.ErrorIsLatest` | guessnumber/src/app/page.tsx:18-57 | `error` is the message of the latest failure, unless a selection or a guarded submit start cleared it since; a success does not touch it |
| `HomeState.ErrorUnchanged` | guessnumber/src/app/page.tsx:18-57 | `error` changes only through a selection, a guarded submit start or a failure |
| `HomeState.StaleReadOverwritesPreview` | guessnumber/src/app/page.tsx:20-29 | select A, then B; B's read completes, then A's; `selectedFile` is B and the preview is A's |
| `HomeState.ReentrantCompletionClearsLoading` | guessnumber/src/app/page.tsx:33-57 | select, submit, submit, one completion: `loading` is false while one response is still owed |
| `HomeState.ResultSurvivesLaterFailure` | guessnumber/src/app/page.tsx:33-57 | select, submit, success, submit, failure: `result` still holds the first response and `error` holds the failure's message |
| `HomeState.OverlappingFailureSurvivesSuccess` | guessnumber/src/app/page.tsx:33-57 | select, submit, submit, failure, success: `result` holds the success's data, `error` still holds the failure's message, and `loading` is false |
| `HomeComponent.Home.constructor` | guessnumber/src/app/page.tsx:8-16 | the component starts with nothing selected, no preview, result or error, and `loading` false |
| `HomeComponent.Home.SelectFile` | guessnumber/src/app/page.tsx:18-31 | with no file, no state changes; with a file, it becomes `selectedFile`, `result` and `error` are cleared, `preview` and `loading` are kept, and a read of it starts |
| `HomeComponent.Home.PreviewReadCompletes` | guessnumber/src/app/page.tsx:26-28 | `preview` becomes the read's data URL; no other field changes, a file is selected, and the read is not checked against the current selection |
| `HomeComponent.Home.PreviewReadFails` | guessnumber/src/app/page.tsx:25-29 | a read that never loads changes no field |
| `HomeComponent.Home.SubmitStart` | guessnumber/src/app/page.tsx:33-37 | with no selection it returns at once and changes nothing; otherwise `loading` is set and `error` cleared, and `result`, `preview` and `selectedFile` are kept |
| `HomeComponent.Home.SubmitCompletes` | guessnumber/src/app/page.tsx:39-56 | `loading` is false after every outcome; a success replaces `result` and leaves `error` as it was (cleared by its start unless an overlapping submission failed since); a failure sets `error` by the priority above and keeps `result` |

## Left out

- The request itself (`FormData`, `fetch` of `/api/analyze`, `response.json()`) is network I/O and parsing. It enters the model only as the `Outcome` that settles a submission.
- `FileReader` and data-URL encoding are browser I/O. A read's result is an opaque string delivered by `PreviewReadCompletes`.
- `Analysis.NotOkMessage`: the body's `error` field is modelled as an optional string. A truthy non-string value (a number, an object), which `Error` would turn into a string, is not modelled.
- The success body is stored as given by `setResult(data)`. The model takes it to have the three string fields; a body of another shape is not modelled.
- React's scheduling is not modelled: batched setter calls and closures that capture the state of an earlier render. Each event is one atomic step on the current state, and events interleave in any order the pending reads and submissions allow.
- `HomeComponent.Home.SubmitCompletes` does not record which file a request carried, because no state depends on it.
- The button's `disabled={loading}`, the file picker's `accept="image/*"` filter and the "Max 10MB" hint are advisory view attributes, not handler logic.
- The rest of the JSX (layout, animation, icons, the file name under the preview) is presentation.
