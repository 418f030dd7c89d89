# Voice-to-Img: scene parsing, image calls and the Dream Sequence loop

Voice-to-Img is a Streamlit app. It transcribes a spoken dream description
and turns it into pictures. There are two modes:

- **Single Image** sends the whole transcript to an image-generation
  service (Google's Gemini image model) once and shows the result.
- **Dream Sequence** asks a chat model to cut the transcript into scenes.
  It splits the reply into scene strings. It then generates one image per
  scene in a grid of at most three columns. Scenes after the first wait two
  seconds. Each scene gets up to three attempts, with a warning and a
  two-second pause between them.

This project models that core in Dafny and proves properties of the model:

- `scenes.dfy` (module `Scenes`): `split_into_scenes` after the chat call,
  so line splitting, Python's `str.strip` with and without a character set,
  and the filtering comprehension.
- `image_api.dfy` (module `ImageApi`): `call_banana_api`. It builds the JSON
  payload around the prompt. It classifies the service's reply, or the
  transport failure, into an image list, an error dict or an escaping
  `KeyError`.
- `app.dfy` (module `App`): the Single Image branch as a function, and the
  Dream Sequence branch as two methods with loops.
  - `RunScene` is one scene's three-attempt loop.
  - `RunDreamSequence` is the loop over the scenes.
  - Each method is proved equal to a specification function:
    `RunScene` to the recursive `AttemptsFrom`, and `RunDreamSequence` to
    `DreamSequence`, which hands over to the recursive `BlocksFrom`.
- `dream_properties.dfy` (module `DreamProperties`): what the two branches
  promise. These are stated on measures of the event log against
  reference definitions:
  - the measures are the calls made, the seconds slept, the warnings and
    the per-scene outcomes;
  - `StopAttempt` is where a scene's retry loop stops;
  - `FirstAbort` and `Processed` say where the first escaping exception
    ends the run.
- `wrappers.dfy` (module `Wrappers`): `Option`.

What the user would see becomes a list of events. The events are:

- `Request`: a call of `call_banana_api`, with its scene, attempt and prompt;
- `Sleep`;
- `Warning`;
- `Error`;
- `Image`;
- `Crash`: an exception Streamlit reports itself.

The services are parameters:

- The image service is seen by `call_banana_api` as a function `post`,
  from the payload to a `Transport`. A `Transport` is either a parsed
  reply, or a `RequestException` with its text and its response.
- The app loop sees `call_banana_api` as an oracle from (scene, attempt)
  to its outcome.
- `base64.b64decode` is a decoder that may fail.

Two behaviours of the code are easy to miss:

- Scenes are not always non-empty. A line made only of dashes and spaces,
  with at least one dash, passes the filter (a dash is not whitespace). Cleaning then leaves `""`,
  so that line is an empty scene (`Scenes.DashLineYieldsEmptyScene`).
- A failure in one scene can stop the other scenes. An exception raised by
  `call_banana_api` inside a scene's loop is not caught per scene. That
  happens when the first candidate of the reply lacks `content` or `parts`,
  or the first part carrying `inlineData` lacks `data`. The exception
  reaches the outer handler at app.py:112-114, which reports
  "Error processing scenes: …" and stops the script, so the remaining
  scenes are never attempted (`DreamProperties.AbortEndsRun`).

## Model

| member | source | states |
|---|---|---|
| Scenes.SplitLines | utils.py:51 | splitting at line feeds yields at least one piece, no piece holds a line feed, and joining the pieces with line feeds gives back the text |
| Scenes.SplitJoin | utils.py:51 | splitting the line-feed join of line-feed-free lines gives those same lines back |
| Scenes.LStripShape | utils.py:51 | `lstrip(cs)` leaves a suffix of the string, removes only characters of `cs`, and the result does not start with one |
| Scenes.RStripShape | utils.py:51 | `rstrip(cs)` leaves a prefix of the string, removes only characters of `cs`, and the result does not end with one |
| Scenes.StripShape | utils.py:51 | `strip(cs)` is empty exactly when every character is in `cs`; otherwise it starts and ends outside `cs`; it only keeps characters of the string |
| Scenes.BlankIffInvisible | utils.py:51 | the comprehension's filter keeps a line exactly when it holds a non-whitespace character |
| Scenes.CleanLineTrimmed | utils.py:51 | a cleaned line has no line feed and no whitespace at either end |
| Scenes.SceneCount | utils.py:51 | there is one scene per line holding a visible character, namely that line cleaned, in line order |
| Scenes.ScenesTrimmed | utils.py:51 | no scene holds a line feed or starts or ends with whitespace |
| Scenes.DashLineYieldsEmptyScene | utils.py:51 | a line of dashes and spaces with at least one dash passes the filter and becomes the empty scene |
| Scenes.VisibleCharGivesScene | utils.py:51 | a non-whitespace character anywhere in the reply yields at least one scene |
| Scenes.SceneGivesVisibleChar | utils.py:51 | a reply with a scene holds a non-whitespace character |
| Scenes.NoScenesIffWhitespace | utils.py:51 | the reply yields no scene exactly when it is whitespace only |
| Scenes.LStrip | utils.py:51 | `str.lstrip(cs)`: drops the leading characters of `cs`; its shape is stated by `LStripShape` |
| Scenes.RStrip | utils.py:51 | `str.rstrip(cs)`: drops the trailing characters of `cs`; its shape is stated by `RStripShape` |
| Scenes.Strip | utils.py:51 | `str.strip(cs)` as `rstrip` after `lstrip`; its shape is stated by `StripShape` |
| Scenes.JoinLines | utils.py:51 | the inverse of splitting at line feeds: pieces joined with `"\n"`; the round trips are `SplitLines` and `SplitJoin` |
| Scenes.IsBlank | utils.py:51 | the comprehension's filter: the whitespace-stripped line is empty; characterised by `BlankIffInvisible` |
| Scenes.CleanLine | utils.py:51 | the comprehension's value: dashes and spaces stripped, then whitespace; its result is trimmed by `CleanLineTrimmed` |
| Scenes.ScenesFrom | utils.py:51 | the comprehension's filter and map over the lines from a position on; characterised by `ScenesAreCleanedLines` and `SceneCount` |
| Scenes.SplitIntoScenes | utils.py:51 | the comprehension over the reply's lines; its scenes are characterised by `SceneCount`, `ScenesTrimmed` and `NoScenesIffWhitespace` |
| ImageApi.BuildPayload | utils.py:59-96 | one content with one text part: the fixed prefix, then the prompt, then the style lines; temperature 0.85, topP 0.9, topK 45, 2048 output tokens; three safety settings, for dangerous content, harassment and hate speech in that order, all blocking from medium up |
| ImageApi.PromptRoundTrip | utils.py:59-75 | the prompt can be read back from the payload between the fixed prefix and suffix |
| ImageApi.PayloadDeterminedByPrompt | utils.py:54-96 | two calls send the same payload exactly when their prompts agree; the context bytes never reach the request |
| ImageApi.FirstImagePart | utils.py:104-105 | the search returns the first part carrying inline data, or none when no part carries any |
| ImageApi.NoCandidatesCase | utils.py:103-113 | the result is the "No candidates in response" error exactly when `candidates` is missing or empty |
| ImageApi.FirstImageWins | utils.py:103-107 | with candidates, the first image part of the first candidate decides: the result is the one-element list holding its data |
| ImageApi.NoImageCase | utils.py:103-110 | with candidates, the result is the "No image generated in response" error exactly when no part of the first candidate carries inline data |
| ImageApi.OnlyFirstCandidateMatters | utils.py:104 | candidates after the first never change the result |
| ImageApi.RaisesCase | utils.py:103-107 | a delivered reply raises `KeyError` exactly when the first candidate lacks `content` or `parts`, or its first image part lacks `data` |
| ImageApi.CallResultShape | utils.py:98-124 | a returned value is an error dict or a one-element list whose entry has an image; a failed request never raises |
| ImageApi.RequestFailureMessage | utils.py:115-124 | a failed request yields `{"error": m}`, where `m` is the body's nested `error.message` when present and the exception text otherwise |
| ImageApi.ContextIgnored | utils.py:54-99 | the context bytes never change the outcome of a call |
| ImageApi.KeyErrorText | utils.py:104-107 | `str(KeyError(k))`, the key in single quotes: the text of the escapes stated by `RaisesCase` |
| ImageApi.ClassifyResponse | utils.py:103-113 | the branches on a delivered reply: no candidates, the first image part, no image part, or a `KeyError`; each case is pinned down by `NoCandidatesCase`, `FirstImageWins`, `NoImageCase` and `RaisesCase` |
| ImageApi.FailureMessage | utils.py:115-124 | the message of a failed request: the nested `error.message` of a JSON body, else the exception text; stated by `RequestFailureMessage` |
| ImageApi.CallBananaApi | utils.py:54-124 | the whole call: the payload sent, then the reply classified or the failure turned into an error dict; its shape is stated by `CallResultShape` and `ContextIgnored` |
| App.WrapIsMod | app.py:64 | the repeated-subtraction wrap is the remainder for widths 1 to 3 |
| App.ColumnInRange | app.py:61-64 | scene `idx` goes to column `(idx - 1) % min(3, n)`, which is one of the grid's columns; the first scenes fill the columns from the left |
| App.ColumnOf | app.py:64 | the column of scene `idx` among `min(3, n)` columns; stated by `ColumnInRange` and `ColumnsRepeat` |
| App.ImageField | app.py:34 | `result[0].get("image", "")`: the entry's image, or the empty string when the key is absent; used by `ClassifyAttempt` and `SingleImage` |
| App.AbortText | app.py:113 | the outer handler's message; `AttemptsOutcome` and `AbortEndsRun` state that an escaping scene ends the run with it |
| App.ClassifyAttempt | app.py:74-110 | the branch one reply takes in the retry loop: error dict, image shown, no image data, decode failure, unexpected value, or an exception that leaves the loop; `RealRepliesNeverUnexpected` relates it to `CallBananaApi` |
| App.WarningText | app.py:76-107 | the retry warning of each failure kind with the attempt number 1 or 2 |
| App.FinalText | app.py:80-110 | the error of each failure kind after the third attempt |
| App.AttemptsFrom | app.py:71-110 | the specification of one scene's loop from a given attempt on; `RunScene` is proved equal to it and `AttemptsRequests`, `AttemptsTiming` and `AttemptsOutcome` state its calls, pauses and outcome |
| App.SceneBlock | app.py:63-110 | one scene: the pacing pause unless it is the first, then its attempts; stated by `SceneSleep`, `BlockOutcome` and `BlockRequests` |
| App.BlocksFrom | app.py:63-114 | the scenes from a position on, stopping after a scene whose loop raised; stated by `BlocksRequests` and `BlocksOutcomes` |
| App.DreamSequence | app.py:47-114 | the whole branch on a scene list; `RunDreamSequence` is proved equal to it and the lemmas of `DreamProperties` state its calls, pauses and outcomes |
| App.SingleImage | app.py:26-44 | one call with the transcript, then one event: the image in the main area when the reply decodes, an error in the main area exactly when the reply is a failure, a crash when the call raised |
| App.RunScene | app.py:71-110 | the three-attempt loop produces exactly the events of `AttemptsFrom` from attempt 0, and reports an abort exactly when `AttemptsFrom` does |
| App.RunDreamSequence | app.py:47-114 | the branch produces exactly the events of `DreamSequence` on the parsed scenes, and the single "No scenes were identified" error when there are none |
| DreamProperties.StopAttemptIsFirstNonFailure | app.py:71-110 | a scene's loop stops at the first attempt that does not fail, or at the third |
| DreamProperties.AttemptsRequests | app.py:71-72 | a scene's loop calls attempts 0 up to its stopping attempt, in order, each with the scene's own prompt |
| DreamProperties.AttemptsOwnScene | app.py:71-72 | a scene's loop makes no call for any other scene |
| DreamProperties.AttemptsTiming | app.py:74-108 | a scene's loop warns once per failed attempt before its stopping attempt and sleeps two seconds per warning |
| DreamProperties.AttemptsOutcome | app.py:71-114 | a scene's loop settles on one outcome, which is its last event, and is aborted exactly when its stopping attempt raised |
| DreamProperties.SceneSleep | app.py:68-78 | every scene but the first starts with the two-second pause followed by its first call; the first scene starts with its first call; a scene sleeps two seconds per warning on top of that pause |
| DreamProperties.BlockOutcome | app.py:63-114 | each scene's block ends on its outcome, which is its only image or error, and is aborted exactly when the scene aborts |
| DreamProperties.FirstAbortIsFirst | app.py:112-114 | `FirstAbort` is the first scene whose loop an exception leaves, or the number of scenes when there is none |
| DreamProperties.BlocksRequests | app.py:63-114 | from a given scene on, each scene processed gets its attempts' calls with its prompt, and every later scene gets none |
| DreamProperties.NoScenesNoCalls | app.py:49-52 | the branch calls the image service not at all exactly when the chat reply is whitespace only; with no scene it shows the single error |
| DreamProperties.CallsPerScene | app.py:63-110 | each scene gets at most three calls, numbered from 0, with its own prompt, up to the first attempt that does not fail; scenes after an aborting one get none |
| DreamProperties.ScenesInOrder | app.py:63-114 | the run processes scenes in order up to the last one or the first abort, with exactly one outcome per processed scene, in scene order |
| DreamProperties.RunEndsWithLastOutcome | app.py:63-114 | the log ends with the outcome of the last scene processed |
| DreamProperties.EveryScene | app.py:63-114 | no scene aborts exactly when `FirstAbort` reaches the number of scenes; then the log holds one outcome per scene, in scene order, each an image or an error in its own scene's column |
| DreamProperties.OutcomePlace | app.py:74-114 | a scene's outcome is an image or an error, in the main area exactly when the scene's loop raised, else in the scene's column |
| DreamProperties.LastEventShowsAbort | app.py:63-114 | the log ends with an error in the main area exactly when some scene's loop raised |
| DreamProperties.AbortEndsRun | app.py:112-114 | an exception in a scene's loop ends the run with the outer handler's error in the main area, and no later scene is called |
| DreamProperties.TotalSleep | app.py:68-78 | the run sleeps two seconds before every processed scene but the first, plus two per retry warning |
| DreamProperties.ColumnsRepeat | app.py:61-64 | the column assignment repeats every `min(3, n)` scenes |
| DreamProperties.RealRepliesNeverUnexpected | app.py:104-110 | on the values `call_banana_api` actually returns, the loop never takes the "Unexpected response" branch, and a reply without candidates becomes an error-dict failure |
| DreamProperties.SingleImageOneShot | app.py:26-44 | Single Image mode calls once with the transcript, never sleeps or warns, and shows one outcome unless the call raised |

## Left out

- Transcription (`transcribe_audio`) and the chat-model call of `split_into_scenes` are not modelled. The chat model's reply is the input of `Scenes.SplitIntoScenes`, and the transcript is the input of `App.SingleImage`.
- The Streamlit interface is not modelled: page setup, mode radio, uploader, button, `st.info`/`st.success`/`st.write` messages and the scene listing. The model keeps only the calls, sleeps, warnings, errors and images the branches produce.
- The HTTP exchange is the parameter `post`. This covers the POST, `raise_for_status` and `response.json()`. In current versions of `requests`, a 2xx body that is not JSON makes `response.json()` raise a `RequestException` without a response. `post` expresses that as `RequestFailed(text, NoResponse)`. The API key and URL from the environment are not modelled.
- The debug `print` calls in `call_banana_api` are output only and are not modelled.
- JSON values of unexpected types are not modelled; the reply is a tree of records with optional keys. Some such values raise errors the model does not represent: a non-empty object as `candidates` gives `KeyError: 0`; an `inlineData` that is not an object gives `TypeError`; and a part that is a string whose text contains `inlineData` passes the `"inlineData" in part` test, which is a substring test on a string, so `next` returns it and indexing it with `["inlineData"]` gives `TypeError`. Others do not raise: any other string part is skipped by that test, and an empty object or string as `candidates` reads as no candidates.
- `base64.b64decode` is an abstract decoder that returns bytes or an error message. Exceptions raised by `st.image` itself inside the same `try` are not modelled.
- `time.sleep(2)` is a `Sleep(2)` event. Wall-clock time is not modelled.
- `call_banana_api` inside the Dream Sequence loop is an oracle indexed by scene number and attempt. Its link to `ImageApi.CallBananaApi` is the lemma `DreamProperties.RealRepliesNeverUnexpected`.
- The unreachable code after `st.stop()` at app.py:115-131 is not modelled.
- `st.stop()` is modelled by ending the event log.
- App.WrapIsMod: proved only for widths 1 to 3, because the grid never has more than `min(3, len(scenes))` columns.
- App.SingleImage: its contract says which kind of event ends the branch, where it appears and what it carries. The wording of each error message is fixed by the function's body and not restated in the contract.
