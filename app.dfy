/**
  The image-generation part of the Streamlit script (app.py:26-114): the
  Single Image branch, and the Dream Sequence branch that walks the scenes
  in order, paces them, and gives each scene up to three attempts.

  What the user sees is a log of events. `call_banana_api` is an oracle
  that answers attempt `attempt` of scene `idx`; base64 decoding is a
  parameter that may fail; `time.sleep(2)` is an event counting two units.
 */
module App {
  import opened Wrappers
  import opened ImageApi
  import Scenes

  /** Where Streamlit puts an element: the main area or one of the image columns. */
  datatype Place = Main | Column(index: nat)

  /** `caption="Generated Image"` or `caption=f"... Dream Scene {idx}"`. */
  datatype Caption = GeneratedImage | DreamScene(idx: nat)

  datatype Event =
    | Request(scene: nat, attempt: nat, prompt: string)   // call_banana_api(prompt, None)
    | Sleep(units: nat)                                      // time.sleep
    | Warning(place: Place, text: string)                    // st.warning
    | Error(place: Place, text: string)                      // st.error
    | Image(place: Place, bytes: seq<byte>, caption: Caption) // st.image
    | Crash(text: string)                                     // an exception Streamlit reports itself

  /** `base64.b64decode`: the bytes, or the text of the exception it raised. */
  datatype DecodeResult = Decoded(bytes: seq<byte>) | DecodeFailed(message: string)

  type Decoder = string -> DecodeResult

  /** The answer of `call_banana_api` on attempt `attempt` of scene `idx` (1-based). */
  type Oracle = (nat, nat) -> CallOutcome

  /** Why one attempt of the Dream Sequence loop failed. */
  datatype Failure =
    | ErrorResult(message: string)   // a dict with "error"
    | NoImageData                    // a list whose first "image" is empty or absent
    | DecodeError(message: string)   // b64decode raised
    | UnexpectedResponse             // any other value, an empty list among them

  /**
    What one attempt amounts to: an image to show, a failure, or an
    exception that leaves the scene loop altogether.
   */
  datatype Attempt = Shown(bytes: seq<byte>) | Failed(failure: Failure) | Escaped(message: string)

  const NoScenesMessage: string :=
    "No scenes were identified. Please try with a longer or more detailed description."

  /** `result[0].get("image", "")`. */
  function ImageField(entry: Entry): string
  {
    match entry.image
    case Some(image) => image
    case None => ""
  }

  /** The branch the Dream Sequence loop takes on one reply (app.py:74-110). */
  function ClassifyAttempt(reply: CallOutcome, decode: Decoder): Attempt
  {
    match reply
    case Raised(message) => Escaped(message)
    case Returned(result) =>
      if result.ErrorDict? then Failed(ErrorResult(result.error))
      else if result.ImageList? && |result.entries| > 0 then
        var image := ImageField(result.entries[0]);
        if image != "" then
          match decode(image)
          case Decoded(bytes) => Shown(bytes)
          case DecodeFailed(message) => Failed(DecodeError(message))
        else Failed(NoImageData)
      else Failed(UnexpectedResponse)
  }

  /** `attempt + 1` as text, for the first two attempts. */
  function AttemptNumber(attempt: nat): string
    requires attempt < 2
  {
    if attempt == 0 then "1" else "2"
  }

  /** The warning shown before a retry. */
  function WarningText(failure: Failure, attempt: nat): string
    requires attempt < 2
  {
    match failure
    case ErrorResult(message) => "Attempt " + AttemptNumber(attempt) + " failed: " + message + ". Retrying..."
    case NoImageData => "Attempt " + AttemptNumber(attempt) + ": No image data. Retrying..."
    case DecodeError(message) => "Attempt " + AttemptNumber(attempt) + " failed: " + message + ". Retrying..."
    case UnexpectedResponse => "Attempt " + AttemptNumber(attempt) + ": Unexpected response. Retrying..."
  }

  /** The error shown when the third attempt fails. */
  function FinalText(failure: Failure): string
  {
    match failure
    case ErrorResult(message) => "Failed after all attempts: " + message
    case NoImageData => "No image generated after all attempts"
    case DecodeError(message) => "Error processing image: " + message
    case UnexpectedResponse => "Unexpected API response after all attempts"
  }

  /** The error of the outer handler (app.py:112-114), after which the script stops. */
  function AbortText(message: string): string
  {
    "Error processing scenes: " + message
  }

  function Min(a: nat, b: nat): nat
  {
    if a <= b then a else b
  }

  /** `i % w` by repeated subtraction; `WrapIsMod` shows it is the remainder for the widths used here. */
  function Wrap(i: nat, w: nat): nat
    requires 1 <= w
    decreases i
  {
    if i < w then i else Wrap(i - w, w)
  }

  lemma {:induction false} WrapIsMod(i: nat, w: nat)
    requires 1 <= w <= 3
    ensures Wrap(i, w) == i % w
    decreases i
  {
    if i >= w {
      WrapIsMod(i - w, w);
    }
  }

  /**
    `(idx - 1) % len(image_cols)` with `min(3, n)` columns: always one of
    the columns, and the first scenes fill them from the left. The remainder
    is computed by `Wrap` rather than `%` only to keep the proofs about the
    run cheap for the solver; `ColumnInRange` shows the two agree.
   */
  function ColumnOf(idx: nat, n: nat): (col: nat)
    requires 1 <= idx && 1 <= n
  {
    Wrap(idx - 1, Min(3, n))
  }

  lemma ColumnInRange(idx: nat, n: nat)
    requires 1 <= idx && 1 <= n
    ensures ColumnOf(idx, n) == (idx - 1) % Min(3, n)
    ensures ColumnOf(idx, n) < Min(3, n)
    ensures idx <= Min(3, n) ==> ColumnOf(idx, n) == idx - 1
  {
    WrapIsMod(idx - 1, Min(3, n));
  }

  // ---------------------------------------------------------------------------
  // Single Image mode (app.py:26-44)
  // ---------------------------------------------------------------------------

  /**
    One call, no retry, one outcome. An exception out of the call is not
    caught in this branch, so Streamlit reports it.
   */
  function SingleImage(text: string, reply: CallOutcome, decode: Decoder): (events: seq<Event>)
    ensures |events| == 2 && events[0] == Request(0, 0, text)
    ensures ClassifyAttempt(reply, decode).Shown? ==> events[1] == Image(Main, ClassifyAttempt(reply, decode).bytes, GeneratedImage)
    ensures events[1].Image? ==> ClassifyAttempt(reply, decode) == Shown(events[1].bytes)
    ensures ClassifyAttempt(reply, decode).Failed? <==> events[1].Error? && events[1].place == Main
    ensures ClassifyAttempt(reply, decode).Escaped? ==> events[1] == Crash(ClassifyAttempt(reply, decode).message)
    ensures events[1].Crash? ==> ClassifyAttempt(reply, decode) == Escaped(events[1].text)
  {
    var outcome :=
      match reply
      case Raised(message) => Crash(message)
      case Returned(result) =>
        if result.ErrorDict? then Error(Main, "Image generation failed: " + result.error)
        else if result.ImageList? && |result.entries| > 0 then
          var image := ImageField(result.entries[0]);
          if image != "" then
            match decode(image)
            case Decoded(bytes) => Image(Main, bytes, GeneratedImage)
            case DecodeFailed(message) => Error(Main, "Error processing image: " + message)
          else Error(Main, "No image data in the response")
        else Error(Main, "Unexpected response format from the API");
    [Request(0, 0, text), outcome]
  }

  // ---------------------------------------------------------------------------
  // Dream Sequence mode (app.py:47-114): the specification
  // ---------------------------------------------------------------------------

  /** The events of one scene's attempt loop, and whether an exception left it. */
  datatype SceneRun = SceneRun(events: seq<Event>, aborted: bool)

  /** Attempts `attempt`, ..., 2 of scene `idx` (prompt `scene`), shown in column `col`. */
  function AttemptsFrom(scene: string, idx: nat, col: nat, attempt: nat, oracle: Oracle, decode: Decoder): SceneRun
    requires attempt < 3
    decreases 3 - attempt
  {
    var request := Request(idx, attempt, scene);
    match ClassifyAttempt(oracle(idx, attempt), decode)
    case Shown(bytes) => SceneRun([request, Image(Column(col), bytes, DreamScene(idx))], false)
    case Escaped(message) => SceneRun([request, Error(Main, AbortText(message))], true)
    case Failed(failure) =>
      if attempt < 2 then
        var rest := AttemptsFrom(scene, idx, col, attempt + 1, oracle, decode);
        SceneRun([request, Warning(Column(col), WarningText(failure, attempt)), Sleep(2)] + rest.events, rest.aborted)
      else
        SceneRun([request, Error(Column(col), FinalText(failure))], false)
  }

  /** Scene `k + 1` of the list: the pacing pause unless it is the first, then its attempts. */
  function SceneBlock(scenes: seq<string>, k: nat, oracle: Oracle, decode: Decoder): SceneRun
    requires k < |scenes|
  {
    var idx := k + 1;
    var run := AttemptsFrom(scenes[k], idx, ColumnOf(idx, |scenes|), 0, oracle, decode);
    SceneRun((if idx > 1 then [Sleep(2)] else []) + run.events, run.aborted)
  }

  /** The scenes from position `k` on, until the end or an exception. */
  function BlocksFrom(scenes: seq<string>, k: nat, oracle: Oracle, decode: Decoder): seq<Event>
    decreases |scenes| - k
  {
    if k >= |scenes| then []
    else
      var block := SceneBlock(scenes, k, oracle, decode);
      if block.aborted then block.events else block.events + BlocksFrom(scenes, k + 1, oracle, decode)
  }

  /** One step of `BlocksFrom`: scene `k + 1`'s block, then the rest unless it was aborted. */
  lemma BlocksStep(scenes: seq<string>, k: nat, oracle: Oracle, decode: Decoder)
    requires k < |scenes|
    ensures var block := SceneBlock(scenes, k, oracle, decode);
      BlocksFrom(scenes, k, oracle, decode)
        == if block.aborted then block.events else block.events + BlocksFrom(scenes, k + 1, oracle, decode)
  {
  }

  /** The image part of the Dream Sequence branch on a scene list. */
  function DreamSequence(scenes: seq<string>, oracle: Oracle, decode: Decoder): seq<Event>
  {
    if scenes == [] then [Error(Main, NoScenesMessage)] else BlocksFrom(scenes, 0, oracle, decode)
  }

  // ---------------------------------------------------------------------------
  // Dream Sequence mode: the loop
  // ---------------------------------------------------------------------------

  lemma AppendAssociative<T>(a: seq<T>, b: seq<T>, c: seq<T>)
    ensures (a + b) + c == a + (b + c)
  {
  }

  /**
    The body of `with image_cols[col_idx]:` after the pacing pause: up to
    three attempts at scene `idx`. `aborted` is set when the call raised,
    in which case the outer handler's error is the last event.
   */
  method RunScene(scene: string, idx: nat, col: nat, oracle: Oracle, decode: Decoder) returns (events: seq<Event>, aborted: bool)
    ensures SceneRun(events, aborted) == AttemptsFrom(scene, idx, col, 0, oracle, decode)
  {
    ghost var spec := AttemptsFrom(scene, idx, col, 0, oracle, decode);
    events := [];
    aborted := false;
    ghost var finished := false;
    for attempt := 0 to 3
      invariant !finished ==> attempt < 3
      invariant !finished ==> events + AttemptsFrom(scene, idx, col, attempt, oracle, decode).events == spec.events
      invariant !finished ==> AttemptsFrom(scene, idx, col, attempt, oracle, decode).aborted == spec.aborted
      invariant finished ==> attempt == 3 && events == spec.events && !spec.aborted
      invariant !aborted
    {
      ghost var here := AttemptsFrom(scene, idx, col, attempt, oracle, decode);
      ghost var before := events;
      var reply := oracle(idx, attempt);
      var request := Request(idx, attempt, scene);
      events := events + [request];
      match ClassifyAttempt(reply, decode)
      case Escaped(message) =>
        events := events + [Error(Main, AbortText(message))];
        aborted := true;
        return;
      case Shown(bytes) =>
        events := events + [Image(Column(col), bytes, DreamScene(idx))];
        finished := true;
        break;
      case Failed(failure) =>
        if attempt < 2 {
          ghost var rest := AttemptsFrom(scene, idx, col, attempt + 1, oracle, decode);
          var retry := [request, Warning(Column(col), WarningText(failure, attempt)), Sleep(2)];
          assert here == SceneRun(retry + rest.events, rest.aborted);
          events := events + [Warning(Column(col), WarningText(failure, attempt)), Sleep(2)];
          assert events == before + retry;
          AppendAssociative(before, retry, rest.events);
          continue;
        }
        events := events + [Error(Column(col), FinalText(failure))];
        finished := true;
    }
  }

  /**
    The Dream Sequence branch on the chat model's reply `scenesText`: it
    splits the reply into scenes, stops with one error when there are none,
    and otherwise runs the scenes in order, pausing before every scene but
    the first, until the last scene or an exception.
   */
  method RunDreamSequence(scenesText: string, oracle: Oracle, decode: Decoder) returns (events: seq<Event>)
    ensures events == DreamSequence(Scenes.SplitIntoScenes(scenesText), oracle, decode)
    ensures Scenes.SplitIntoScenes(scenesText) == [] ==> events == [Error(Main, NoScenesMessage)]
  {
    var scenes := Scenes.SplitIntoScenes(scenesText);
    if scenes == [] {
      events := [Error(Main, NoScenesMessage)];
      return;
    }
    events := [];
    for idx := 1 to |scenes| + 1
      invariant events + BlocksFrom(scenes, idx - 1, oracle, decode) == BlocksFrom(scenes, 0, oracle, decode)
    {
      var col := ColumnOf(idx, |scenes|);
      ghost var before := events;
      var pause: seq<Event> := [];
      if idx > 1 {
        pause := [Sleep(2)];
      }
      var sceneEvents, aborted := RunScene(scenes[idx - 1], idx, col, oracle, decode);
      BlocksStep(scenes, idx - 1, oracle, decode);
      ghost var block := pause + sceneEvents;
      events := events + pause + sceneEvents;
      AppendAssociative(before, pause, sceneEvents);
      if aborted {
        return;
      }
      AppendAssociative(before, block, BlocksFrom(scenes, idx, oracle, decode));
    }
  }
}
