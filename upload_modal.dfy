/** The upload dialog's wizard (client/src/components/modals/upload-modal.tsx): the
    `step`, `files`, `detectedType` and `error` state and the handlers and request
    callbacks that update it. `UploadWizard` holds the state and has one method per
    handler; `Next` is the same transitions on values, and the lemmas about the wizard
    are stated over it. The two requests are not sent here: a handler returns the
    request it would send, and the outcome comes back through the matching callback.
    The callback that stores the analysis results writes to an application-wide store,
    modelled by the `analysisResults` field. */
module UploadModal {
  import opened Wrappers

  datatype Step = Upload | Detecting | Confirm | Processing | Done

  /** A dropped file; only its name and size are shown. */
  datatype File = File(name: string, size: nat)

  datatype Request =
    | DetectType(file: File)
    | Analyze(file: File, contractType: string)

  /** The wizard's state on values; `R` is the analysis the server returns. */
  datatype State<R> = State(step: Step, files: seq<File>, detectedType: Option<string>, error: Option<string>,
                            analysisResults: Option<R>)

  /** What can happen to the wizard: the dropzone, the buttons, and the outcomes of the
      two requests. */
  datatype Event<R> =
    | Drop(accepted: seq<File>)
    | StartDetection
    | DetectionSucceeded(kind: string)
    | DetectionFailed
    | StartAnalysis
    | AnalysisSucceeded(data: R)
    | AnalysisFailed
    | Close
    | TryAnotherFile
    | RemoveFile

  const NoFileSelected: string := "No file selected"
  const DetectionError: string := "Failed to detect contract type"
  const UploadError: string := "Failed to upload contract"

  /** The state a freshly mounted dialog starts in, results store aside. */
  function Initial<R>(results: Option<R>): State<R>
  {
    State(Upload, [], None, None, results)
  }

  /** JavaScript truthiness of `detectedType`. */
  predicate HasType(t: Option<string>)
  {
    t.Some? && t.value != ""
  }

  /** Each handler and callback as a function of the state. */
  function Next<R>(s: State<R>, e: Event<R>): State<R>
  {
    match e
    case Drop(accepted) =>
      if |accepted| > 0 then s.(files := accepted, error := None, step := Upload)
      else s.(error := Some(NoFileSelected))
    case StartDetection =>
      if |s.files| > 0 then s.(step := Detecting) else s
    case DetectionSucceeded(kind) => s.(detectedType := Some(kind), step := Confirm)
    case DetectionFailed => s.(error := Some(DetectionError), step := Upload)
    case StartAnalysis =>
      if |s.files| > 0 && HasType(s.detectedType) then s.(step := Processing) else s
    case AnalysisSucceeded(data) => s.(analysisResults := Some(data), step := Done)
    case AnalysisFailed => s.(error := Some(UploadError), step := Upload)
    case Close => Initial(s.analysisResults)
    case TryAnotherFile => s.(step := Upload)
    case RemoveFile => s.(files := [])
  }

  /** The request a handler sends, if any: detection sends the first file, analysis the
      first file and the detected type. */
  function Sent<R>(s: State<R>, e: Event<R>): Option<Request>
  {
    match e
    case StartDetection => if |s.files| > 0 then Some(DetectType(s.files[0])) else None
    case StartAnalysis =>
      if |s.files| > 0 && HasType(s.detectedType) then Some(Analyze(s.files[0], s.detectedType.value)) else None
    case _ => None
  }

  class UploadWizard<R> {
    var step: Step
    var files: seq<File>
    var detectedType: Option<string>
    var error: Option<string>
    var analysisResults: Option<R>

    function Snapshot(): State<R>
      reads this
    {
      State(step, files, detectedType, error, analysisResults)
    }

    constructor (results: Option<R>)
      ensures Snapshot() == Initial(results)
    {
      step := Upload;
      files := [];
      detectedType := None;
      error := None;
      analysisResults := results;
    }

    /** `onDrop`. */
    method OnDrop(accepted: seq<File>)
      modifies this
      ensures Snapshot() == Next(old(Snapshot()), Drop(accepted))
      ensures |accepted| > 0 ==> files == accepted && error == None && step == Upload
      ensures |accepted| == 0 ==> error == Some(NoFileSelected) && files == old(files) && step == old(step)
    {
      if |accepted| > 0 {
        files := accepted;
        error := None;
        step := Upload;
      } else {
        error := Some(NoFileSelected);
      }
    }

    /** `handleFileUpload`: start detection when a file is selected. */
    method HandleFileUpload() returns (request: Option<Request>)
      modifies this
      ensures Snapshot() == Next(old(Snapshot()), StartDetection)
      ensures request == Sent(old(Snapshot()), StartDetection)
      ensures |files| > 0 ==> step == Detecting && request == Some(DetectType(files[0]))
      ensures |files| == 0 ==> Snapshot() == old(Snapshot()) && request.None?
    {
      request := None;
      if |files| > 0 {
        step := Detecting;
        request := Some(DetectType(files[0]));
      }
    }

    /** The detection request's `onSuccess`. */
    method OnDetectionSuccess(kind: string)
      modifies this
      ensures Snapshot() == Next(old(Snapshot()), DetectionSucceeded(kind))
    {
      detectedType := Some(kind);
      step := Confirm;
    }

    /** The detection request's `onError`. */
    method OnDetectionError()
      modifies this
      ensures Snapshot() == Next(old(Snapshot()), DetectionFailed)
    {
      error := Some(DetectionError);
      step := Upload;
    }

    /** `handleAnalyzeContract`: start the analysis when a file is selected and a type
        was detected. */
    method HandleAnalyzeContract() returns (request: Option<Request>)
      modifies this
      ensures Snapshot() == Next(old(Snapshot()), StartAnalysis)
      ensures request == Sent(old(Snapshot()), StartAnalysis)
    {
      request := None;
      if |files| > 0 && detectedType.Some? && detectedType.value != "" {
        step := Processing;
        request := Some(Analyze(files[0], detectedType.value));
      }
    }

    /** The analysis request's `onSuccess`. */
    method OnUploadSuccess(data: R)
      modifies this
      ensures Snapshot() == Next(old(Snapshot()), AnalysisSucceeded(data))
    {
      analysisResults := Some(data);
      step := Done;
    }

    /** The analysis request's `onError`. */
    method OnUploadError()
      modifies this
      ensures Snapshot() == Next(old(Snapshot()), AnalysisFailed)
    {
      error := Some(UploadError);
      step := Upload;
    }

    /** `handleClose`. */
    method HandleClose()
      modifies this
      ensures Snapshot() == Next(old(Snapshot()), Close)
      ensures Snapshot() == Initial(analysisResults)
    {
      files := [];
      detectedType := None;
      error := None;
      step := Upload;
    }

    /** The "No, Try another file" button. */
    method TryAnother()
      modifies this
      ensures Snapshot() == Next(old(Snapshot()), TryAnotherFile)
    {
      step := Upload;
    }

    /** The trash button next to the selected file. */
    method RemoveSelectedFile()
      modifies this
      ensures Snapshot() == Next(old(Snapshot()), RemoveFile)
    {
      files := [];
    }
  }

  // ---------------------------------------------------------------------------------
  // What the transitions promise

  /** Dropping files: a non-empty drop replaces the selection, clears the error and
      returns to the first step; an empty drop only reports that no file was
      selected. */
  lemma DropReplacesSelection<R>(s: State<R>, accepted: seq<File>)
    ensures |accepted| > 0 ==> Next(s, Drop(accepted)) == State(Upload, accepted, s.detectedType, None, s.analysisResults)
    ensures |accepted| == 0 ==> Next(s, Drop(accepted)) == s.(error := Some(NoFileSelected))
  {
  }

  /** Detection starts only with a file, and then sends that first file; its outcome
      either stores the type and asks for confirmation or reports the failure and
      returns to the first step. */
  lemma DetectionSteps<R>(s: State<R>, kind: string)
    ensures Next(s, StartDetection).step == Detecting <==> |s.files| > 0 || s.step == Detecting
    ensures |s.files| == 0 ==> Next(s, StartDetection) == s && Sent(s, StartDetection).None?
    ensures |s.files| > 0 ==> Sent(s, StartDetection) == Some(DetectType(s.files[0]))
    ensures Next(s, DetectionSucceeded(kind)).step == Confirm && Next(s, DetectionSucceeded(kind)).detectedType == Some(kind)
    ensures Next(s, DetectionFailed).step == Upload && Next(s, DetectionFailed).error == Some(DetectionError)
  {
  }

  /** Analysis starts only with a file and a non-empty detected type, and sends both;
      success stores the results and finishes, failure reports and returns to the
      first step. */
  lemma AnalysisSteps<R>(s: State<R>, data: R)
    ensures s.step != Processing ==> (Next(s, StartAnalysis).step == Processing <==> |s.files| > 0 && HasType(s.detectedType))
    ensures Sent(s, StartAnalysis).Some? <==> |s.files| > 0 && HasType(s.detectedType)
    ensures Sent(s, StartAnalysis).Some? ==> Sent(s, StartAnalysis).value == Analyze(s.files[0], s.detectedType.value)
    ensures Next(s, AnalysisSucceeded(data)).step == Done && Next(s, AnalysisSucceeded(data)).analysisResults == Some(data)
    ensures Next(s, AnalysisFailed).step == Upload && Next(s, AnalysisFailed).error == Some(UploadError)
  {
  }

  /** Closing forgets the selection, the type and the error whatever the step; going
      back to try another file keeps them; the trash button clears only the
      selection. */
  lemma CloseAndBack<R>(s: State<R>)
    ensures Next(s, Close) == Initial(s.analysisResults)
    ensures Next(s, TryAnotherFile) == s.(step := Upload)
    ensures Next(s, RemoveFile).files == [] && Next(s, RemoveFile).step == s.step
    ensures Next(s, RemoveFile).detectedType == s.detectedType && Next(s, RemoveFile).error == s.error
  {
  }

  // ---------------------------------------------------------------------------------
  // The wizard's invariant

  /** Which events the dialog can receive in a state. The dropzone, the trash button
      and the analyse button are only on the first step; the confirmation buttons only
      on the confirmation step; closing and the request outcomes can come at any time,
      since a request still in flight reports even after the dialog was closed. */
  predicate Available<R>(s: State<R>, e: Event<R>)
  {
    match e
    case Drop(_) => s.step == Upload
    case StartDetection => s.step == Upload && |s.files| > 0
    case RemoveFile => s.step == Upload && |s.files| > 0
    case StartAnalysis => s.step == Confirm
    case TryAnotherFile => s.step == Confirm
    case _ => true
  }

  /** While a request is being awaited there is a selected file to send, analysis
      also has a type, and the confirmation step always has a type to show. */
  predicate Consistent<R>(s: State<R>)
  {
    && (s.step == Detecting ==> |s.files| > 0)
    && (s.step == Processing ==> |s.files| > 0 && HasType(s.detectedType))
    && (s.step == Confirm ==> s.detectedType.Some?)
  }

  function Run<R>(s: State<R>, events: seq<Event<R>>): State<R>
    decreases |events|
  {
    if events == [] then s else Run(Next(s, events[0]), events[1..])
  }

  predicate AllAvailable<R>(s: State<R>, events: seq<Event<R>>)
    decreases |events|
  {
    events == [] || (Available(s, events[0]) && AllAvailable(Next(s, events[0]), events[1..]))
  }

  /** Every event the dialog can receive keeps the wizard consistent. */
  lemma StepKeepsConsistent<R>(s: State<R>, e: Event<R>)
    requires Consistent(s) && Available(s, e)
    ensures Consistent(Next(s, e))
  {
  }

  /** The dialog starts consistent and stays so through any sequence of events it can
      receive. */
  lemma {:induction false} RunKeepsConsistent<R>(s: State<R>, events: seq<Event<R>>)
    requires Consistent(s) && AllAvailable(s, events)
    ensures Consistent(Run(s, events))
    decreases |events|
  {
    if events != [] {
      StepKeepsConsistent(s, events[0]);
      RunKeepsConsistent(Next(s, events[0]), events[1..]);
    }
  }

  lemma InitialConsistent<R>(results: Option<R>)
    ensures Consistent(Initial(results))
    ensures Initial(results).step == Upload && Initial(results).files == [] && Initial(results).detectedType.None?
      && Initial(results).error.None?
  {
  }

  /** A detection result that arrives after the dialog was closed still moves it to the
      confirmation step, now with no file, where the analyse button does nothing. */
  lemma LateDetectionAfterClose<R>(f: File, kind: string, results: Option<R>)
    requires kind != ""
    ensures var s := Run(Initial(results), [Drop([f]), StartDetection, Close, DetectionSucceeded(kind)]);
      s.step == Confirm && s.files == [] && s.detectedType == Some(kind)
      && Next(s, StartAnalysis) == s && Sent(s, StartAnalysis).None?
  {
    var s0 := Initial(results);
    var s1 := Next(s0, Drop([f]));
    var s2 := Next(s1, StartDetection);
    var s3 := Next(s2, Close);
    var s4 := Next(s3, DetectionSucceeded(kind));
    assert Run(s4, []) == s4;
    assert Run(s0, [Drop([f]), StartDetection, Close, DetectionSucceeded(kind)]) == Run(s1, [StartDetection, Close, DetectionSucceeded(kind)]);
    assert Run(s1, [StartDetection, Close, DetectionSucceeded(kind)]) == Run(s2, [Close, DetectionSucceeded(kind)]);
    assert Run(s2, [Close, DetectionSucceeded(kind)]) == Run(s3, [DetectionSucceeded(kind)]);
  }
}
