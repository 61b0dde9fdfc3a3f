/**
 * The decisions of components/HistoryPanel.tsx: the status shown for each
 * stored result, when the Clear button is disabled, and the choice between the
 * empty-history message and one table row per stored result.
 */
module HistoryPanel {
  import opened Types
  import opened QcSummaryPanel

  datatype Status = Status(icon: Icon, iconColor: string, text: string)

  /** `getStatus`: Fail on any Error, else Warning on any Warning, else Pass. */
  function GetStatus(result: AnalysisResult): Status {
    if AnySeverity(result.qcIssues, Error) then Status(ErrorIcon, "text-danger", "Fail")
    else if AnySeverity(result.qcIssues, Warning) then Status(WarningIcon, "text-warning", "Warning")
    else Status(CheckCircleIcon, "text-success", "Pass")
  }

  /** The text an overall status is shown as here: an Error reads "Fail". */
  function StatusWord(s: Severity): string {
    match s
    case Error => "Fail"
    case Warning => "Warning"
    case Pass => "Pass"
  }

  /** The history's status agrees with the summary panel's overall status, Error renamed Fail. */
  lemma GetStatusAgrees(result: AnalysisResult)
    ensures GetStatus(result).text == StatusWord(OverallStatus(result.qcIssues))
    ensures GetStatus(result).icon == SeverityStyles(OverallStatus(result.qcIssues)).icon
  {
  }

  /** Each status word is reached exactly under its condition. */
  lemma GetStatusIff(result: AnalysisResult)
    ensures GetStatus(result).text == "Fail" <==> Has(result.qcIssues, Error)
    ensures GetStatus(result).text == "Warning" <==> !Has(result.qcIssues, Error) && Has(result.qcIssues, Warning)
    ensures GetStatus(result).text == "Pass" <==> !Has(result.qcIssues, Error) && !Has(result.qcIssues, Warning)
  {
    OverallStatusIff(result.qcIssues);
    GetStatusAgrees(result);
  }

  /** `disabled={history.length === 0}` */
  predicate ClearDisabled(history: seq<AnalysisResult>) {
    |history| == 0
  }

  const EmptyHistory := "No analysis history found."

  /** A table row: file name, localised date, status; the row's button re-opens `item`. */
  datatype HistoryRow = HistoryRow(key: string, fileName: string, date: string, status: Status, item: AnalysisResult)

  datatype Body = EmptyMessage(text: string) | Table(rows: seq<HistoryRow>)

  function RowOf(item: AnalysisResult, localize: string -> string): HistoryRow {
    HistoryRow(item.id, item.fileName, localize(item.timestamp), GetStatus(item), item)
  }

  /** The body below the header; `localize` stands for `new Date(ts).toLocaleString()`. */
  function HistoryBody(history: seq<AnalysisResult>, localize: string -> string): Body {
    if |history| == 0 then EmptyMessage(EmptyHistory)
    else Table(seq(|history|, i requires 0 <= i < |history| => RowOf(history[i], localize)))
  }

  /**
   * The empty message shows exactly when the history is empty, which is also
   * when Clear is disabled; otherwise there is one row per stored result, in order.
   */
  lemma HistoryBodyRows(history: seq<AnalysisResult>, localize: string -> string)
    ensures HistoryBody(history, localize).EmptyMessage? <==> ClearDisabled(history)
    ensures HistoryBody(history, localize).EmptyMessage? ==> HistoryBody(history, localize).text == EmptyHistory
    ensures HistoryBody(history, localize).Table? ==>
      && |HistoryBody(history, localize).rows| == |history|
      && forall i :: 0 <= i < |history| ==>
           HistoryBody(history, localize).rows[i].item == history[i]
           && HistoryBody(history, localize).rows[i].status.text == StatusWord(OverallStatus(history[i].qcIssues))
  {
    forall i | 0 <= i < |history|
      ensures GetStatus(history[i]).text == StatusWord(OverallStatus(history[i].qcIssues))
    {
      GetStatusAgrees(history[i]);
    }
  }
}
