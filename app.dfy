/**
 * The state of App.tsx and its handlers: the theme, the current results, the
 * loading flag, the error, the stored history and the active view, with the
 * all-or-nothing batch transition of `handleFiles`, the history handlers, the
 * view switches and the `renderContent` dispatch.
 */
module App {
  import opened Types
  import opened QcAnalyzer
  import opened GeminiService

  datatype View = UploadView | AnalysisView | HistoryView

  /**
   * What the fan-out learnt about one file: its name, its parsed media info,
   * the two clock readings (`new Date().toISOString()` for the id and for the
   * timestamp) and the summary model's reply (None when the call threw).
   */
  datatype ParsedFile = ParsedFile(name: string, mediaInfo: MediaInfo, idTime: string, timestamp: string, reply: Option<string>)

  /**
   * How `Promise.all` settled: every file parsed, or some step rejected, with
   * the message of the `Error` it threw (None when what it threw is not an `Error`).
   */
  datatype BatchOutcome = Parsed(files: seq<ParsedFile>) | Rejected(message: Option<string>)

  const UnknownError := "An unknown error occurred during analysis."

  /** The result built for one file. */
  function ResultOf(f: ParsedFile, apiKey: Option<string>, fmt: NumberText): AnalysisResult {
    var issues := QcIssues(f.mediaInfo, fmt);
    AnalysisResult(f.name + "-" + f.idTime, f.name, f.timestamp, f.mediaInfo, issues,
      GenerateQcSummary(apiKey, issues, f.reply))
  }

  /** `files.map(...)`: one result per file, in file order. */
  function BatchResults(files: seq<ParsedFile>, apiKey: Option<string>, fmt: NumberText): seq<AnalysisResult> {
    seq(|files|, i requires 0 <= i < |files| => ResultOf(files[i], apiKey, fmt))
  }

  /**
   * Each result names its file, carries the rule engine's issues for its media
   * info and the summary written for those issues, and has the id
   * `<file name>-<time>` and its own timestamp; the results come in file order.
   * An issue-free file with a key configured gets the fixed all-passed text.
   */
  lemma BatchResultsSpec(files: seq<ParsedFile>, apiKey: Option<string>, fmt: NumberText, i: nat)
    requires i < |files|
    ensures |BatchResults(files, apiKey, fmt)| == |files|
    ensures BatchResults(files, apiKey, fmt)[i].fileName == files[i].name
    ensures BatchResults(files, apiKey, fmt)[i].mediaInfo == files[i].mediaInfo
    ensures BatchResults(files, apiKey, fmt)[i].qcIssues == QcIssues(files[i].mediaInfo, fmt)
    ensures |BatchResults(files, apiKey, fmt)[i].id| > |files[i].name|
    ensures BatchResults(files, apiKey, fmt)[i].id[..|files[i].name| + 1] == files[i].name + "-"
    ensures BatchResults(files, apiKey, fmt)[i].id == files[i].name + "-" + files[i].idTime
    ensures BatchResults(files, apiKey, fmt)[i].timestamp == files[i].timestamp
    ensures BatchResults(files, apiKey, fmt)[i].qcSummary ==
      GenerateQcSummary(apiKey, QcIssues(files[i].mediaInfo, fmt), files[i].reply)
    ensures apiKey.Some? && apiKey.value != "" && QcIssues(files[i].mediaInfo, fmt) == [] ==>
      BatchResults(files, apiKey, fmt)[i].qcSummary == AllPassedText
  {
    var id := files[i].name + "-" + files[i].idTime;
    assert id[..|files[i].name| + 1] == files[i].name + "-";
  }

  /** Mapping one more file appends its result. */
  lemma BatchResultsSnoc(files: seq<ParsedFile>, apiKey: Option<string>, fmt: NumberText, i: nat)
    requires i < |files|
    ensures BatchResults(files[..i + 1], apiKey, fmt) ==
      BatchResults(files[..i], apiKey, fmt) + [ResultOf(files[i], apiKey, fmt)]
  {
    var a := BatchResults(files[..i + 1], apiKey, fmt);
    var b := BatchResults(files[..i], apiKey, fmt) + [ResultOf(files[i], apiKey, fmt)];
    assert |a| == |b|;
    forall k | 0 <= k < |a|
      ensures a[k] == b[k]
    {
      assert files[..i + 1][k] == files[k];
    }
  }

  /** A stored result is consistent when its issues are what the rule engine gives for its media info. */
  predicate Consistent(results: seq<AnalysisResult>, fmt: NumberText) {
    forall i :: 0 <= i < |results| ==> results[i].qcIssues == QcIssues(results[i].mediaInfo, fmt)
  }

  lemma BatchConsistent(files: seq<ParsedFile>, apiKey: Option<string>, fmt: NumberText, older: seq<AnalysisResult>)
    requires Consistent(older, fmt)
    ensures Consistent(BatchResults(files, apiKey, fmt), fmt)
    ensures Consistent(BatchResults(files, apiKey, fmt) + older, fmt)
  {
    ConsistentAppend(BatchResults(files, apiKey, fmt), older, fmt);
  }

  lemma ConsistentAppend(a: seq<AnalysisResult>, b: seq<AnalysisResult>, fmt: NumberText)
    requires Consistent(a, fmt) && Consistent(b, fmt)
    ensures Consistent(a + b, fmt)
  {
    assert forall i :: |a| <= i < |a + b| ==> (a + b)[i] == b[i - |a|];
  }

  /** `prevTheme === 'light' ? 'dark' : 'light'` */
  function Flip(t: Theme): Theme {
    if t == Light then Dark else Light
  }

  /** Toggling changes the theme, and toggling twice restores it. */
  lemma FlipInvolutive(t: Theme)
    ensures Flip(t) != t
    ensures Flip(Flip(t)) == t
  {
  }

  /** What `renderContent` shows. */
  datatype Screen =
    | HistoryScreen(history: seq<AnalysisResult>)
    | AnalysisScreen(results: seq<AnalysisResult>, isLoading: bool)
    | UploadScreen(isLoading: bool, error: Option<string>)

  function RenderContent(view: View, isLoading: bool, results: seq<AnalysisResult>,
                         history: seq<AnalysisResult>, error: Option<string>): Screen {
    if view == HistoryView then HistoryScreen(history)
    else if isLoading || |results| > 0 then AnalysisScreen(results, isLoading)
    else UploadScreen(isLoading, error)
  }

  /**
   * The history view wins; otherwise the analysis view shows while loading or
   * when there are results; otherwise the upload zone, which also shows the error.
   */
  lemma RenderContentIff(view: View, isLoading: bool, results: seq<AnalysisResult>,
                         history: seq<AnalysisResult>, error: Option<string>)
    ensures RenderContent(view, isLoading, results, history, error).HistoryScreen? <==> view == HistoryView
    ensures RenderContent(view, isLoading, results, history, error).AnalysisScreen? <==>
      view != HistoryView && (isLoading || results != [])
    ensures RenderContent(view, isLoading, results, history, error).UploadScreen? <==>
      view != HistoryView && !isLoading && results == []
    ensures RenderContent(view, isLoading, results, history, error) == UploadScreen(false, error) <==>
      view != HistoryView && !isLoading && results == []
  {
  }

  class AppState {
    var theme: Theme
    var analysisResults: seq<AnalysisResult>
    var isLoading: bool
    var error: Option<string>
    var history: seq<AnalysisResult>
    var activeView: View

    /**
     * The initial state; `storedTheme` and `storedHistory` are what local
     * storage holds, if anything (dark and an empty history by default).
     */
    constructor (storedTheme: Option<Theme>, storedHistory: Option<seq<AnalysisResult>>)
      ensures theme == (if storedTheme.Some? then storedTheme.value else Dark)
      ensures history == (if storedHistory.Some? then storedHistory.value else [])
      ensures analysisResults == [] && !isLoading && error == None && activeView == UploadView
    {
      theme := if storedTheme.Some? then storedTheme.value else Dark;
      history := if storedHistory.Some? then storedHistory.value else [];
      analysisResults := [];
      isLoading := false;
      error := None;
      activeView := UploadView;
    }

    /** What the main area shows in this state. */
    function Content(): Screen
      reads this
    {
      RenderContent(activeView, isLoading, analysisResults, history, error)
    }

    method ToggleTheme()
      modifies this
      ensures theme == Flip(old(theme))
      ensures analysisResults == old(analysisResults) && isLoading == old(isLoading) && error == old(error)
      ensures history == old(history) && activeView == old(activeView)
    {
      theme := Flip(theme);
    }

    /** The synchronous start of `handleFiles`. */
    method BeginBatch()
      modifies this
      ensures isLoading && error == None && analysisResults == []
      ensures theme == old(theme) && history == old(history) && activeView == old(activeView)
    {
      isLoading := true;
      error := None;
      analysisResults := [];
    }

    /** `files.map(...)` with `analyzeQC` run on each parsed file in turn. */
    static method AnalyzeFiles(files: seq<ParsedFile>, apiKey: Option<string>, fmt: NumberText)
      returns (results: seq<AnalysisResult>)
      ensures results == BatchResults(files, apiKey, fmt)
    {
      results := [];
      for i := 0 to |files|
        invariant results == BatchResults(files[..i], apiKey, fmt)
      {
        var issues := AnalyzeQC(files[i].mediaInfo, fmt);
        var summary := GenerateQcSummary(apiKey, issues, files[i].reply);
        var result := AnalysisResult(files[i].name + "-" + files[i].idTime, files[i].name, files[i].timestamp,
          files[i].mediaInfo, issues, summary);
        assert result == ResultOf(files[i], apiKey, fmt);
        BatchResultsSnoc(files, apiKey, fmt, i);
        results := results + [result];
      }
      assert files[..|files|] == files;
    }

    /** The settling of the batch: the `try` body or the `catch`, then the `finally`. */
    method CompleteBatch(outcome: BatchOutcome, apiKey: Option<string>, fmt: NumberText)
      modifies this
      ensures !isLoading && theme == old(theme)
      ensures outcome.Parsed? ==>
        && analysisResults == BatchResults(outcome.files, apiKey, fmt)
        && history == analysisResults + old(history)
        && activeView == AnalysisView && error == old(error)
      ensures outcome.Rejected? ==>
        && error == Some(if outcome.message.Some? then outcome.message.value else UnknownError)
        && activeView == UploadView
        && analysisResults == old(analysisResults) && history == old(history)
    {
      match outcome {
        case Parsed(files) =>
          var results := AnalyzeFiles(files, apiKey, fmt);
          analysisResults := results;
          history := results + history;
          activeView := AnalysisView;
        case Rejected(message) =>
          error := Some(if message.Some? then message.value else UnknownError);
          activeView := UploadView;
      }
      isLoading := false;
    }

    /** `handleFiles`: the batch goes into the history whole, or not at all. */
    method HandleFiles(outcome: BatchOutcome, apiKey: Option<string>, fmt: NumberText)
      modifies this
      ensures !isLoading && theme == old(theme)
      ensures outcome.Parsed? ==>
        && analysisResults == BatchResults(outcome.files, apiKey, fmt)
        && history == analysisResults + old(history)
        && activeView == AnalysisView && error == None
      ensures outcome.Rejected? ==>
        && error == Some(if outcome.message.Some? then outcome.message.value else UnknownError)
        && activeView == UploadView
        && analysisResults == [] && history == old(history)
      ensures Consistent(old(history), fmt) ==> Consistent(history, fmt)
    {
      BeginBatch();
      CompleteBatch(outcome, apiKey, fmt);
      if outcome.Parsed? && Consistent(old(history), fmt) {
        BatchConsistent(outcome.files, apiKey, fmt, old(history));
      }
    }

    /** `handleViewHistory` */
    method ViewHistory()
      modifies this
      ensures activeView == HistoryView && Content() == HistoryScreen(history)
      ensures theme == old(theme) && analysisResults == old(analysisResults) && isLoading == old(isLoading)
      ensures error == old(error) && history == old(history)
    {
      activeView := HistoryView;
    }

    /** `handleShowUpload` */
    method ShowUpload()
      modifies this
      ensures analysisResults == [] && activeView == UploadView
      ensures theme == old(theme) && isLoading == old(isLoading) && error == old(error) && history == old(history)
    {
      analysisResults := [];
      activeView := UploadView;
    }

    /** `handleClearHistory` */
    method ClearHistory()
      modifies this
      ensures history == []
      ensures theme == old(theme) && analysisResults == old(analysisResults) && isLoading == old(isLoading)
      ensures error == old(error) && activeView == old(activeView)
    {
      history := [];
    }

    /** `handleReanalyzeFromHistory`: the stored result is shown again, the history is untouched. */
    method Reanalyze(result: AnalysisResult)
      modifies this
      ensures analysisResults == [result] && activeView == AnalysisView
      ensures !isLoading ==> Content() == AnalysisScreen([result], false)
      ensures theme == old(theme) && isLoading == old(isLoading) && error == old(error) && history == old(history)
    {
      analysisResults := [result];
      activeView := AnalysisView;
    }

    /** The history panel's `onBack`: to the analysis if there are results, else to the upload zone. */
    method Back()
      modifies this
      ensures activeView == (if |analysisResults| > 0 then AnalysisView else UploadView)
      ensures activeView == AnalysisView <==> analysisResults != []
      ensures theme == old(theme) && analysisResults == old(analysisResults) && isLoading == old(isLoading)
      ensures error == old(error) && history == old(history)
    {
      activeView := if |analysisResults| > 0 then AnalysisView else UploadView;
    }
  }

  /**
   * After a rejected batch the upload zone shows the error; after a batch that
   * parsed, the results show unless the batch was empty, in which case the
   * upload zone shows, since nothing is loading and there are no results.
   */
  lemma ContentAfterBatch(outcome: BatchOutcome, apiKey: Option<string>, fmt: NumberText,
                          history: seq<AnalysisResult>, error: Option<string>)
    ensures outcome.Rejected? ==>
      var e := Some(if outcome.message.Some? then outcome.message.value else UnknownError);
      RenderContent(UploadView, false, [], history, e) == UploadScreen(false, e)
    ensures outcome.Parsed? && outcome.files != [] ==>
      RenderContent(AnalysisView, false, BatchResults(outcome.files, apiKey, fmt), history, error)
        == AnalysisScreen(BatchResults(outcome.files, apiKey, fmt), false)
    ensures outcome.Parsed? && outcome.files == [] ==>
      RenderContent(AnalysisView, false, BatchResults(outcome.files, apiKey, fmt), history, error)
        == UploadScreen(false, error)
  {
  }
}
