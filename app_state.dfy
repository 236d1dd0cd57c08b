/** The UI state machine `appReducer` and its `initialState`: a closed set of actions over the
    screen step and seven data fields, each action returning a fresh state record. */
module AppState {
  import opened Wrappers
  import opened DeployerTypes

  /** The screen the plugin shows. */
  datatype AppStep = InputStep | ScanProgressStep | PreviewStep | ResultStep

  /** What the preview screen shows: a single-page preview or the multi-page previews and their
      summary; every part is optional. */
  datatype PreviewData = PreviewData(
    single: Option<bool>,
    changes: Option<seq<ChangeRecord>>,
    missingKeys: Option<seq<string>>,
    pagesPreviews: Option<seq<PagePreview>>,
    summary: Option<ScanSummary>)

  datatype State = State(
    step: AppStep,
    jsonInput: string,
    wordingData: Option<WordingData>,
    previewData: Option<PreviewData>,
    report: Option<DeploymentReport>,
    error: string,
    loading: bool,
    scanProgress: Option<ScanProgress>)

  datatype Action =
    | SetStep(step: AppStep)
    | SetJsonInput(input: string)
    | SetWordingData(data: Option<WordingData>)
    | SetPreviewData(preview: Option<PreviewData>)
    | SetReport(report: Option<DeploymentReport>)
    | SetError(message: string)
    | SetLoading(loading: bool)
    | SetScanProgress(progress: Option<ScanProgress>)
    | LoadJsonSuccess(wordingData: WordingData, jsonInput: string)
    | StartScan
    | ScanComplete(scanned: PreviewData)
    | DeployComplete(deployed: DeploymentReport)
    | Reset

  const InitializingLabel: string := "Initializing..."

  const InitialState: State := State(InputStep, "", None, None, None, "", false, None)

  /** `appReducer(state, action)`. */
  function Reduce(state: State, action: Action): State
  {
    match action
    case SetStep(x) => state.(step := x)
    case SetJsonInput(x) => state.(jsonInput := x)
    case SetWordingData(x) => state.(wordingData := x)
    case SetPreviewData(x) => state.(previewData := x)
    case SetReport(x) => state.(report := x)
    case SetError(x) => state.(error := x)
    case SetLoading(x) => state.(loading := x)
    case SetScanProgress(x) => state.(scanProgress := x)
    case LoadJsonSuccess(d, j) => state.(wordingData := Some(d), jsonInput := j, error := "")
    case StartScan =>
      state.(loading := true, error := "", step := ScanProgressStep,
             scanProgress := Some(ScanProgress(InitializingLabel, 0, 0)))
    case ScanComplete(p) => state.(loading := false, previewData := Some(p), step := PreviewStep)
    case DeployComplete(r) => state.(loading := false, report := Some(r), step := ResultStep)
    case Reset => InitialState.(jsonInput := state.jsonInput, wordingData := state.wordingData)
  }

  /** The eight fields of the state. */
  datatype Field = StepField | JsonInputField | WordingDataField | PreviewDataField
                 | ReportField | ErrorField | LoadingField | ScanProgressField

  /** `s` and `t` agree on every field outside `fields`. */
  predicate SameExcept(s: State, t: State, fields: set<Field>)
  {
    && (StepField !in fields ==> s.step == t.step)
    && (JsonInputField !in fields ==> s.jsonInput == t.jsonInput)
    && (WordingDataField !in fields ==> s.wordingData == t.wordingData)
    && (PreviewDataField !in fields ==> s.previewData == t.previewData)
    && (ReportField !in fields ==> s.report == t.report)
    && (ErrorField !in fields ==> s.error == t.error)
    && (LoadingField !in fields ==> s.loading == t.loading)
    && (ScanProgressField !in fields ==> s.scanProgress == t.scanProgress)
  }

  /** The fields an action may write. */
  function Touched(action: Action): set<Field>
  {
    match action
    case SetStep(_) => {StepField}
    case SetJsonInput(_) => {JsonInputField}
    case SetWordingData(_) => {WordingDataField}
    case SetPreviewData(_) => {PreviewDataField}
    case SetReport(_) => {ReportField}
    case SetError(_) => {ErrorField}
    case SetLoading(_) => {LoadingField}
    case SetScanProgress(_) => {ScanProgressField}
    case LoadJsonSuccess(_, _) => {WordingDataField, JsonInputField, ErrorField}
    case StartScan => {LoadingField, ErrorField, StepField, ScanProgressField}
    case ScanComplete(_) => {LoadingField, PreviewDataField, StepField}
    case DeployComplete(_) => {LoadingField, ReportField, StepField}
    case Reset => {StepField, PreviewDataField, ReportField, ErrorField, LoadingField, ScanProgressField}
  }

  /** No action writes a field outside the ones it names. */
  lemma ReducerFrame(s: State, a: Action)
    ensures SameExcept(s, Reduce(s, a), Touched(a))
  {
  }

  /** Each `SET_*` action replaces exactly its own field with its payload. */
  lemma SettersReplaceOwnField(s: State, a: Action)
    requires a.SetStep? || a.SetJsonInput? || a.SetWordingData? || a.SetPreviewData?
          || a.SetReport? || a.SetError? || a.SetLoading? || a.SetScanProgress?
    ensures |Touched(a)| == 1
    ensures SameExcept(s, Reduce(s, a), Touched(a))
    ensures var r := Reduce(s, a);
            match a
            case SetStep(x) => r.step == x
            case SetJsonInput(x) => r.jsonInput == x
            case SetWordingData(x) => r.wordingData == x
            case SetPreviewData(x) => r.previewData == x
            case SetReport(x) => r.report == x
            case SetError(x) => r.error == x
            case SetLoading(x) => r.loading == x
            case SetScanProgress(x) => r.scanProgress == x
            case _ => false
  {
  }

  /** `LOAD_JSON_SUCCESS` installs the wording and its text and clears the error; the step,
      the loading flag, the preview, the report and the progress are untouched. */
  lemma LoadJsonSuccessSpec(s: State, d: WordingData, j: string)
    ensures var r := Reduce(s, LoadJsonSuccess(d, j));
            && r.wordingData == Some(d) && r.jsonInput == j && r.error == ""
            && r.step == s.step && r.loading == s.loading && r.previewData == s.previewData
            && r.report == s.report && r.scanProgress == s.scanProgress
  {
  }

  /** `START_SCAN` enters the progress screen loading, with no error and the initial progress;
      the preview and the report are kept. */
  lemma StartScanSpec(s: State)
    ensures var r := Reduce(s, StartScan);
            && r.step == ScanProgressStep && r.loading && r.error == ""
            && r.scanProgress == Some(ScanProgress(InitializingLabel, 0, 0))
            && r.previewData == s.previewData && r.report == s.report
            && r.jsonInput == s.jsonInput && r.wordingData == s.wordingData
  {
  }

  /** `SCAN_COMPLETE` shows the preview and stops loading; `DEPLOY_COMPLETE` shows the result and
      stops loading. */
  lemma CompletionSpec(s: State, p: PreviewData, rep: DeploymentReport)
    ensures var r := Reduce(s, ScanComplete(p));
            r.step == PreviewStep && !r.loading && r.previewData == Some(p) && r.report == s.report
    ensures var r := Reduce(s, DeployComplete(rep));
            r.step == ResultStep && !r.loading && r.report == Some(rep) && r.previewData == s.previewData
  {
  }

  /** `RESET` is the initial state except for the JSON text and the wording, which it keeps; it
      is idempotent and leaves the initial state as it is. */
  lemma ResetSpec(s: State)
    ensures var r := Reduce(s, Reset);
            && r.jsonInput == s.jsonInput && r.wordingData == s.wordingData
            && SameExcept(r, InitialState, {JsonInputField, WordingDataField})
    ensures Reduce(Reduce(s, Reset), Reset) == Reduce(s, Reset)
    ensures Reduce(InitialState, Reset) == InitialState
  {
  }

  /** The initial state: the input screen, nothing loaded, no error, not loading. */
  lemma InitialStateSpec()
    ensures InitialState.step == InputStep && InitialState.jsonInput == ""
    ensures InitialState.wordingData.None? && InitialState.previewData.None? && InitialState.report.None?
    ensures InitialState.error == "" && !InitialState.loading && InitialState.scanProgress.None?
  {
  }

  /** The state after dispatching `actions` in order. */
  function ReduceAll(s: State, actions: seq<Action>): State
  {
    if actions == [] then s else Reduce(ReduceAll(s, actions[..|actions| - 1]), actions[|actions| - 1])
  }

  /** The loaded wording and its JSON text survive every action but the ones that set them:
      in particular any number of resets. */
  lemma {:induction false} WordingSurvives(s: State, actions: seq<Action>)
    requires forall i | 0 <= i < |actions| ::
               !actions[i].SetWordingData? && !actions[i].SetJsonInput? && !actions[i].LoadJsonSuccess?
    ensures ReduceAll(s, actions).wordingData == s.wordingData
    ensures ReduceAll(s, actions).jsonInput == s.jsonInput
    decreases |actions|
  {
    if actions != [] {
      WordingSurvives(s, actions[..|actions| - 1]);
    }
  }

  /** The preview screen is entered only by `SCAN_COMPLETE` or by `SET_STEP('preview')`. */
  lemma {:induction false} PreviewReachedOnlyBy(s: State, actions: seq<Action>)
    requires s.step != PreviewStep && ReduceAll(s, actions).step == PreviewStep
    ensures exists i | 0 <= i < |actions| :: actions[i].ScanComplete? || actions[i] == SetStep(PreviewStep)
    decreases |actions|
  {
    var last := actions[|actions| - 1];
    var prefix := actions[..|actions| - 1];
    if !(last.ScanComplete? || last == SetStep(PreviewStep)) {
      PreviewReachedOnlyBy(s, prefix);
      var i :| 0 <= i < |prefix| && (prefix[i].ScanComplete? || prefix[i] == SetStep(PreviewStep));
      assert actions[i] == prefix[i];
    } else {
      assert actions[|actions| - 1] == last;
    }
  }
}
