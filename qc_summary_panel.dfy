/**
 * The decisions of components/QCSummaryPanel.tsx: the overall status of an
 * issue list (an Error beats a Warning, which beats a Pass), the styling of
 * each severity, the summary line and the choice between issue cards and the
 * single "No Issues Detected" card. Markup and layout are not modelled.
 */
module QcSummaryPanel {
  import opened Types
  import opened GeminiService

  /** The overall status: Error if any issue is an Error, else Warning if any is a Warning, else Pass. */
  function OverallStatus(issues: seq<QCIssue>): Severity {
    if AnySeverity(issues, Error) then Error
    else if AnySeverity(issues, Warning) then Warning
    else Pass
  }

  /** Whether some issue has severity `s`. */
  predicate Has(issues: seq<QCIssue>, s: Severity) {
    exists k :: 0 <= k < |issues| && issues[k].severity == s
  }

  /** The three outcomes, each characterised by the severities present. */
  lemma OverallStatusIff(issues: seq<QCIssue>)
    ensures OverallStatus(issues) == Error <==> Has(issues, Error)
    ensures OverallStatus(issues) == Warning <==> !Has(issues, Error) && Has(issues, Warning)
    ensures OverallStatus(issues) == Pass <==> !Has(issues, Error) && !Has(issues, Warning)
  {
    AnySeverityIff(issues, Error);
    AnySeverityIff(issues, Warning);
  }

  /** No issues, or only Pass issues, give a Pass. */
  lemma OverallStatusOfPasses(issues: seq<QCIssue>)
    requires forall k :: 0 <= k < |issues| ==> issues[k].severity == Pass
    ensures OverallStatus(issues) == Pass
  {
    OverallStatusIff(issues);
  }

  /** The status never improves when issues are added. */
  lemma OverallStatusMonotone(issues: seq<QCIssue>, more: seq<QCIssue>)
    ensures Rank(OverallStatus(issues)) <= Rank(OverallStatus(issues + more))
    ensures Rank(OverallStatus(more)) <= Rank(OverallStatus(issues + more))
  {
    OverallStatusIff(issues);
    OverallStatusIff(more);
    OverallStatusIff(issues + more);
    if Has(issues, Error) {
      var k :| 0 <= k < |issues| && issues[k].severity == Error;
      assert (issues + more)[k] == issues[k];
    } else if Has(issues, Warning) {
      var k :| 0 <= k < |issues| && issues[k].severity == Warning;
      assert (issues + more)[k] == issues[k];
    }
    if Has(more, Error) {
      var k :| 0 <= k < |more| && more[k].severity == Error;
      assert (issues + more)[|issues| + k] == more[k];
    } else if Has(more, Warning) {
      var k :| 0 <= k < |more| && more[k].severity == Warning;
      assert (issues + more)[|issues| + k] == more[k];
    }
  }

  /** How serious a status is: Pass < Warning < Error. */
  function Rank(s: Severity): nat {
    match s
    case Pass => 0
    case Warning => 1
    case Error => 2
  }

  datatype Icon = CheckCircleIcon | WarningIcon | ErrorIcon

  /** The icon with its colour class, the background and the border classes. */
  datatype Styles = Styles(icon: Icon, iconColor: string, bgColor: string, borderColor: string)

  /** `getSeverityStyles`: one case per severity. */
  function SeverityStyles(s: Severity): Styles {
    match s
    case Pass => Styles(CheckCircleIcon, "text-success", "bg-green-50 dark:bg-green-900/50", "border-green-200 dark:border-green-700")
    case Warning => Styles(WarningIcon, "text-warning", "bg-amber-50 dark:bg-amber-900/50", "border-amber-200 dark:border-amber-700")
    case Error => Styles(ErrorIcon, "text-danger", "bg-red-50 dark:bg-red-900/50", "border-red-200 dark:border-red-700")
  }

  /** Each severity has its own icon, so the styling identifies the severity. */
  lemma SeverityStylesDistinct(s1: Severity, s2: Severity)
    ensures SeverityStyles(s1).icon == SeverityStyles(s2).icon ==> s1 == s2
    ensures SeverityStyles(s1).bgColor == SeverityStyles(s2).bgColor ==> s1 == s2
  {
  }

  const SummaryLoading := "AI-generated summary loading..."

  /** `summary || 'AI-generated summary loading...'` */
  function SummaryLine(summary: string): string {
    if summary != "" then summary else SummaryLoading
  }

  /** One card per issue: its styling, title and details. */
  datatype IssueCard = IssueCard(key: string, styles: Styles, title: string, details: string)

  datatype Cards = IssueCards(cards: seq<IssueCard>) | NoIssuesCard

  function CardOf(issue: QCIssue): IssueCard {
    IssueCard(issue.id, SeverityStyles(issue.severity), issue.description, issue.details)
  }

  function IssueCardsOf(issues: seq<QCIssue>): Cards {
    if |issues| > 0 then IssueCards(seq(|issues|, k requires 0 <= k < |issues| => CardOf(issues[k])))
    else NoIssuesCard
  }

  /** What the panel shows. */
  datatype Panel = Panel(status: Severity, heading: string, banner: Styles, summary: string, cards: Cards)

  function SummaryPanel(issues: seq<QCIssue>, summary: string): Panel {
    var status := OverallStatus(issues);
    Panel(status, "Overall Status: " + SeverityText(status), SeverityStyles(status), SummaryLine(summary), IssueCardsOf(issues))
  }

  /**
   * For the summary `generateQCSummary` writes, the panel shows the loading
   * text exactly when the model was asked and its reply trims to nothing (or
   * to that very text); every fixed message shows as itself.
   */
  lemma SummaryLoadingIff(apiKey: Option<string>, issues: seq<QCIssue>, reply: Option<string>)
    ensures SummaryPanel(issues, GenerateQcSummary(apiKey, issues, reply)).summary == SummaryLoading <==>
      && apiKey.Some? && apiKey.value != "" && issues != [] && reply.Some?
      && (Trim(reply.value) == SummaryLoading || forall k :: 0 <= k < |reply.value| ==> IsJsSpace(reply.value[k]))
    ensures apiKey.None? || apiKey == Some("") || issues == [] || reply.None? ==>
      SummaryPanel(issues, GenerateQcSummary(apiKey, issues, reply)).summary == GenerateQcSummary(apiKey, issues, reply)
  {
    GenerateQcSummaryEmptyIff(apiKey, issues, reply);
    assert |NoKeyText| != |SummaryLoading|;
    assert |AllPassedText| != |SummaryLoading|;
    assert |ApiErrorText| != |SummaryLoading|;
  }

  /**
   * The panel's cards: the "No Issues Detected" card exactly when there are no
   * issues, otherwise one card per issue, in order, styled by its severity.
   */
  lemma SummaryPanelCards(issues: seq<QCIssue>, summary: string)
    ensures SummaryPanel(issues, summary).cards.NoIssuesCard? <==> |issues| == 0
    ensures SummaryPanel(issues, summary).cards.IssueCards? ==>
      && |SummaryPanel(issues, summary).cards.cards| == |issues|
      && forall k :: 0 <= k < |issues| ==>
           SummaryPanel(issues, summary).cards.cards[k].styles == SeverityStyles(issues[k].severity)
           && SummaryPanel(issues, summary).cards.cards[k].title == issues[k].description
  {
  }

  /** The banner agrees with the heading: both show the overall status. */
  lemma SummaryPanelBanner(issues: seq<QCIssue>, summary: string)
    ensures SummaryPanel(issues, summary).banner.icon == ErrorIcon <==> Has(issues, Error)
    ensures SummaryPanel(issues, summary).heading == "Overall Status: Pass" <==> !Has(issues, Error) && !Has(issues, Warning)
  {
    OverallStatusIff(issues);
    var s := OverallStatus(issues);
    assert ("Overall Status: " + SeverityText(s))[16..] == SeverityText(s);
    assert "Overall Status: Pass"[16..] == "Pass";
  }
}
