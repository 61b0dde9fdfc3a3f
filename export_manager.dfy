/**
 * The export side of services/exportManager.ts: the CSV table (`toCSV`), the
 * plain-text report (`toTextSummary`), the suggested file name and MIME type,
 * and the format switch of `handleExport`. Both text builders append lines
 * with `+=`; each is a method proved equal to the list of lines it writes.
 */
module ExportManager {
  import opened JsText
  import opened Types
  import opened JsValues
  import opened XmlExport

  // ---------------------------------------------------------------------------
  // Tracks in report order
  // ---------------------------------------------------------------------------

  /** `forEach((track, i) => add(`${prefix}${i+1}`, track))`: each stream with its 1-based trackType. */
  function Numbered(prefix: string, ts: seq<Track>): (lts: seq<(string, Track)>)
    ensures |lts| == |ts|
  {
    seq(|ts|, i requires 0 <= i < |ts| => (prefix + NatToString(i + 1), ts[i]))
  }

  /** The general track, then the video track when there is one. */
  function FixedTracks(info: MediaInfo, general: string, video: string): seq<(string, Track)> {
    [(general, info.general)] + (if info.video.Some? then [(video, info.video.value)] else [])
  }

  /** The tracks a report lists, with their labels: general, video, audio streams, subtitle streams. */
  function ReportTracks(info: MediaInfo, general: string, video: string, audio: string, subtitle: string): seq<(string, Track)> {
    FixedTracks(info, general, video) + Numbered(audio, info.audio) + Numbered(subtitle, info.subtitles)
  }

  lemma NumberedSnoc(prefix: string, ts: seq<Track>, i: nat)
    requires i < |ts|
    ensures Numbered(prefix, ts[..i + 1]) == Numbered(prefix, ts[..i]) + [(prefix + NatToString(i + 1), ts[i])]
  {
  }

  // ---------------------------------------------------------------------------
  // Line formats
  // ---------------------------------------------------------------------------

  const CsvHeader := "Track Type,Parameter,Value"
  const QcHeader := "--- QC SUMMARY ---"
  const NoIssues := "No issues found."

  /** `"${String(value).replace(/"/g, '""')}"` */
  function CsvField(v: Value): string {
    "\"" + DoubleQuotes(ToJsString(v)) + "\""
  }

  function CsvRow(trackType: string, key: string, v: Value): string {
    trackType + "," + key + "," + CsvField(v)
  }

  /** One CSV row per entry of the track, in entry order. */
  function CsvRows(trackType: string, t: Track): (rows: seq<string>)
    ensures |rows| == |t|
  {
    seq(|t|, k requires 0 <= k < |t| => CsvRow(trackType, t[k].0, t[k].1))
  }

  /** `${key.replace(/_/g, ' ')}: ${value}` */
  function EntryLine(key: string, v: Value): string {
    ReplaceAll(key, '_', ' ') + ": " + ToJsString(v)
  }

  function EntryLines(t: Track): (lines: seq<string>)
    ensures |lines| == |t|
  {
    seq(|t|, k requires 0 <= k < |t| => EntryLine(t[k].0, t[k].1))
  }

  function SectionHeader(title: string): string {
    "--- " + ToUpper(title) + " ---"
  }

  /** A text-report section: upper-cased title, one line per entry, a blank line. */
  function TextSection(title: string, t: Track): seq<string> {
    [SectionHeader(title)] + EntryLines(t) + [""]
  }

  datatype Report = CsvReport | TextReport

  function TrackLines(report: Report, trackType: string, t: Track): seq<string> {
    match report
    case CsvReport => CsvRows(trackType, t)
    case TextReport => TextSection(trackType, t)
  }

  /** The lines the labelled tracks contribute, in order. */
  function Sections(report: Report, lts: seq<(string, Track)>): seq<string> {
    if lts == [] then []
    else Sections(report, lts[..|lts| - 1]) + TrackLines(report, lts[|lts| - 1].0, lts[|lts| - 1].1)
  }

  lemma SectionsSnoc(report: Report, head: seq<string>, lts: seq<(string, Track)>, trackType: string, t: Track)
    ensures head + Sections(report, lts + [(trackType, t)]) == (head + Sections(report, lts)) + TrackLines(report, trackType, t)
  {
    assert (lts + [(trackType, t)])[..|lts|] == lts;
  }

  /** The per-entry line of a report. */
  function EntryRow(report: Report, trackType: string, key: string, v: Value): string {
    match report
    case CsvReport => CsvRow(trackType, key, v)
    case TextReport => EntryLine(key, v)
  }

  function EntryRows(report: Report, trackType: string, t: Track): seq<string> {
    match report
    case CsvReport => CsvRows(trackType, t)
    case TextReport => EntryLines(t)
  }

  /** One more entry adds one more line. */
  lemma RowsSnoc(report: Report, head: seq<string>, trackType: string, t: Track, k: nat)
    requires k < |t|
    ensures EntryRows(report, trackType, t[..k + 1]) ==
      EntryRows(report, trackType, t[..k]) + [EntryRow(report, trackType, t[k].0, t[k].1)]
    ensures head + EntryRows(report, trackType, t[..k + 1]) ==
      (head + EntryRows(report, trackType, t[..k])) + [EntryRow(report, trackType, t[k].0, t[k].1)]
  {
    assert EntryRows(report, trackType, t[..k + 1]) ==
      EntryRows(report, trackType, t[..k]) + [EntryRow(report, trackType, t[k].0, t[k].1)];
  }

  // ---------------------------------------------------------------------------
  // toCSV
  // ---------------------------------------------------------------------------

  function CsvTracks(info: MediaInfo): seq<(string, Track)> {
    ReportTracks(info, "General", "Video", "Audio ", "Subtitle ")
  }

  /** The lines of `toCSV(info)`: the header, then a row per entry of each listed track. */
  function CsvLines(info: MediaInfo): seq<string> {
    [CsvHeader] + Sections(CsvReport, CsvTracks(info))
  }

  /** `addTrackToCsv`: nothing for a missing track, else one row per entry. */
  method AddTrackToCsv(csv0: string, trackType: string, track: Option<Track>) returns (csv: string)
    ensures csv == csv0 + (if track.Some? then Unlines(CsvRows(trackType, track.value)) else "")
  {
    if track.None? {
      return csv0;
    }
    var t := track.value;
    csv := csv0;
    for k := 0 to |t|
      invariant csv == csv0 + Unlines(EntryRows(CsvReport, trackType, t[..k]))
    {
      RowsSnoc(CsvReport, [], trackType, t, k);
      AppendLine(csv0, csv, EntryRows(CsvReport, trackType, t[..k]), CsvRow(trackType, t[k].0, t[k].1));
      csv := csv + CsvRow(trackType, t[k].0, t[k].1) + "\n";
    }
    assert t[..|t|] == t;
  }

  /** `toCSV(mediaInfo)` */
  method ToCsv(info: MediaInfo) returns (csv: string)
    ensures csv == Unlines(CsvLines(info))
  {
    var head := [CsvHeader];
    csv := CsvHeader + "\n";
    assert csv == Unlines(head + Sections(CsvReport, []));
    var general := AddTrackToCsv("", "General", Some(info.general));
    SectionsSnoc(CsvReport, head, [], "General", info.general);
    AppendLines(csv, general, head + Sections(CsvReport, []), CsvRows("General", info.general));
    csv := csv + general;
    var video := AddTrackToCsv("", "Video", info.video);
    if info.video.Some? {
      SectionsSnoc(CsvReport, head, [("General", info.general)], "Video", info.video.value);
      AppendLines(csv, video, head + Sections(CsvReport, [("General", info.general)]), CsvRows("Video", info.video.value));
    }
    csv := csv + video;
    var fixed := FixedTracks(info, "General", "Video");
    assert csv == Unlines(head + Sections(CsvReport, fixed));
    csv := AddStreamsToCsv(csv, head, fixed, "Audio ", info.audio);
    csv := AddStreamsToCsv(csv, head, fixed + Numbered("Audio ", info.audio), "Subtitle ", info.subtitles);
  }

  /** One more numbered stream adds its lines after those of the streams before it. */
  lemma StreamStep(report: Report, head: seq<string>, before: seq<(string, Track)>, prefix: string, ts: seq<Track>,
                   i: nat, text: string, more: string)
    requires i < |ts|
    requires text == Unlines(head + Sections(report, before + Numbered(prefix, ts[..i])))
    requires more == Unlines(TrackLines(report, prefix + NatToString(i + 1), ts[i]))
    ensures text + more == Unlines(head + Sections(report, before + Numbered(prefix, ts[..i + 1])))
  {
    var title := prefix + NatToString(i + 1);
    var lts := before + Numbered(prefix, ts[..i]);
    NumberedSnoc(prefix, ts, i);
    assert before + Numbered(prefix, ts[..i + 1]) == lts + [(title, ts[i])];
    SectionsSnoc(report, head, lts, title, ts[i]);
    AppendLines(text, more, head + Sections(report, lts), TrackLines(report, title, ts[i]));
  }

  /** The `forEach` over audio or subtitle streams. */
  method AddStreamsToCsv(csv0: string, ghost head: seq<string>, before: seq<(string, Track)>, prefix: string, ts: seq<Track>)
    returns (csv: string)
    requires csv0 == Unlines(head + Sections(CsvReport, before))
    ensures csv == Unlines(head + Sections(CsvReport, before + Numbered(prefix, ts)))
  {
    csv := csv0;
    assert before + Numbered(prefix, ts[..0]) == before;
    for i := 0 to |ts|
      invariant csv == Unlines(head + Sections(CsvReport, before + Numbered(prefix, ts[..i])))
    {
      csv := AddStreamToCsv(csv, head, before, prefix, ts, i);
    }
    assert ts[..|ts|] == ts;
  }

  /** The `forEach` callback for stream i: its rows under the label `<prefix><i + 1>`. */
  method AddStreamToCsv(csv0: string, ghost head: seq<string>, before: seq<(string, Track)>, prefix: string,
                        ts: seq<Track>, i: nat)
    returns (csv: string)
    requires i < |ts|
    requires csv0 == Unlines(head + Sections(CsvReport, before + Numbered(prefix, ts[..i])))
    ensures csv == Unlines(head + Sections(CsvReport, before + Numbered(prefix, ts[..i + 1])))
  {
    var trackType := prefix + NatToString(i + 1);
    var rows := AddTrackToCsv("", trackType, Some(ts[i]));
    assert rows == Unlines(TrackLines(CsvReport, trackType, ts[i])) by {
      assert "" + Unlines(CsvRows(trackType, ts[i])) == Unlines(CsvRows(trackType, ts[i]));
    }
    StreamStep(CsvReport, head, before, prefix, ts, i, csv0, rows);
    csv := csv0 + rows;
  }

  // ---------------------------------------------------------------------------
  // toTextSummary
  // ---------------------------------------------------------------------------

  const TitleLead := "MediaQC Pro Summary for: "
  const DateLead := "Analysis Date: "

  function TextTracks(info: MediaInfo): seq<(string, Track)> {
    ReportTracks(info, "General", "Video", "Audio Stream ", "Subtitle Stream ")
  }

  /** `[${severity}] ${description}: ${details}` */
  function IssueLine(issue: QCIssue): string {
    "[" + SeverityText(issue.severity) + "] " + issue.description + ": " + issue.details
  }

  function IssueLines(issues: seq<QCIssue>): (lines: seq<string>)
    ensures |lines| == |issues|
  {
    seq(|issues|, k requires 0 <= k < |issues| => IssueLine(issues[k]))
  }

  /** The opening of the report: title, date, a blank line, the QC summary heading and text. */
  function Preamble(result: AnalysisResult, localize: string -> string): seq<string> {
    [TitleLead + result.fileName, DateLead + localize(result.timestamp), "", QcHeader, result.qcSummary]
  }

  /** One line per issue, or the no-issues line, then a blank line. */
  function IssueBlock(issues: seq<QCIssue>): seq<string> {
    (if |issues| > 0 then IssueLines(issues) else [NoIssues]) + [""]
  }

  /**
   * The lines of `toTextSummary(result)`; `localize` stands for
   * `new Date(timestamp).toLocaleString()`.
   */
  function TextLines(result: AnalysisResult, localize: string -> string): seq<string> {
    Preamble(result, localize) + IssueBlock(result.qcIssues) + Sections(TextReport, TextTracks(result.mediaInfo))
  }

  /** Writing a line after a line-built text. */
  lemma PushLine(text: string, lines: seq<string>, line: string)
    requires text == Unlines(lines)
    ensures text + line + "\n" == Unlines(lines + [line])
  {
    AppendLine("", text, lines, line);
  }

  /** The `forEach` over the QC issues. */
  method AddIssuesToText(text0: string, issues: seq<QCIssue>) returns (text: string)
    ensures text == text0 + Unlines(IssueLines(issues))
  {
    text := text0;
    for k := 0 to |issues|
      invariant text == text0 + Unlines(IssueLines(issues[..k]))
    {
      assert IssueLines(issues[..k + 1]) == IssueLines(issues[..k]) + [IssueLine(issues[k])];
      AppendLine(text0, text, IssueLines(issues[..k]), IssueLine(issues[k]));
      text := text + IssueLine(issues[k]) + "\n";
    }
    assert issues[..|issues|] == issues;
  }

  /** `addTrackToText`: nothing for a missing track, else a titled section. */
  method AddTrackToText(text0: string, title: string, track: Option<Track>) returns (text: string)
    ensures text == text0 + (if track.Some? then Unlines(TextSection(title, track.value)) else "")
  {
    if track.None? {
      return text0;
    }
    var t := track.value;
    var head := [SectionHeader(title)];
    AppendLine(text0, text0, [], SectionHeader(title));
    text := text0 + SectionHeader(title) + "\n";
    for k := 0 to |t|
      invariant text == text0 + Unlines(head + EntryRows(TextReport, title, t[..k]))
    {
      RowsSnoc(TextReport, head, title, t, k);
      AppendLine(text0, text, head + EntryRows(TextReport, title, t[..k]), EntryLine(t[k].0, t[k].1));
      text := text + EntryLine(t[k].0, t[k].1) + "\n";
    }
    assert t[..|t|] == t;
    AppendLine(text0, text, head + EntryLines(t), "");
    assert text + "\n" == text + "" + "\n";
    text := text + "\n";
  }

  /** The first `+=` statements of `toTextSummary`, up to the QC summary text. */
  method WritePreamble(result: AnalysisResult, localize: string -> string) returns (text: string)
    ensures text == Unlines(Preamble(result, localize))
  {
    var title := TitleLead + result.fileName;
    var date := DateLead + localize(result.timestamp);
    PushLine("", [], title);
    text := title + "\n";
    ghost var lines := [title];
    PushLine(text, lines, date);
    PushLine(text + date + "\n", lines + [date], "");
    assert text + date + "\n\n" == text + date + "\n" + "" + "\n";
    text := text + date + "\n\n";
    lines := lines + [date] + [""];
    PushLine(text, lines, QcHeader);
    text := text + QcHeader + "\n";
    lines := lines + [QcHeader];
    PushLine(text, lines, result.qcSummary);
    text := text + result.qcSummary + "\n";
    lines := lines + [result.qcSummary];
    assert lines == Preamble(result, localize);
  }

  /** The issue lines (or the no-issues line) and the blank line after them. */
  method WriteIssueBlock(text0: string, issues: seq<QCIssue>) returns (text: string)
    ensures text == text0 + Unlines(IssueBlock(issues))
  {
    if |issues| > 0 {
      text := AddIssuesToText(text0, issues);
      AppendLine(text0, text, IssueLines(issues), "");
    } else {
      AppendLine(text0, text0, [], NoIssues);
      text := text0 + NoIssues + "\n";
      AppendLine(text0, text, [NoIssues], "");
    }
    assert text + "\n" == text + "" + "\n";
    text := text + "\n";
  }

  /** `toTextSummary(result)` */
  method ToTextSummary(result: AnalysisResult, localize: string -> string) returns (text: string)
    ensures text == Unlines(TextLines(result, localize))
  {
    var info := result.mediaInfo;
    text := WritePreamble(result, localize);
    ghost var head := Preamble(result, localize) + IssueBlock(result.qcIssues);
    ghost var preamble := text;
    text := WriteIssueBlock(text, result.qcIssues);
    AppendLines(preamble, Unlines(IssueBlock(result.qcIssues)), Preamble(result, localize), IssueBlock(result.qcIssues));
    assert head + Sections(TextReport, []) == head;
    ghost var before := text;
    text := AddTrackToText(text, "General", Some(info.general));
    SectionsSnoc(TextReport, head, [], "General", info.general);
    AppendLines(before, Unlines(TextSection("General", info.general)), head + Sections(TextReport, []), TextSection("General", info.general));
    before := text;
    text := AddTrackToText(text, "Video", info.video);
    if info.video.Some? {
      SectionsSnoc(TextReport, head, [("General", info.general)], "Video", info.video.value);
      AppendLines(before, Unlines(TextSection("Video", info.video.value)),
        head + Sections(TextReport, [("General", info.general)]), TextSection("Video", info.video.value));
    }
    var fixed := FixedTracks(info, "General", "Video");
    assert text == Unlines(head + Sections(TextReport, fixed));
    text := AddStreamsToText(text, head, fixed, "Audio Stream ", info.audio);
    text := AddStreamsToText(text, head, fixed + Numbered("Audio Stream ", info.audio), "Subtitle Stream ", info.subtitles);
  }

  /** The `forEach` over audio or subtitle streams, titled `${prefix}${i+1}`. */
  method AddStreamsToText(text0: string, ghost head: seq<string>, before: seq<(string, Track)>, prefix: string, ts: seq<Track>)
    returns (text: string)
    requires text0 == Unlines(head + Sections(TextReport, before))
    ensures text == Unlines(head + Sections(TextReport, before + Numbered(prefix, ts)))
  {
    text := text0;
    assert before + Numbered(prefix, ts[..0]) == before;
    for i := 0 to |ts|
      invariant text == Unlines(head + Sections(TextReport, before + Numbered(prefix, ts[..i])))
    {
      var title := prefix + NatToString(i + 1);
      ghost var prev := text;
      text := AddTrackToText(text, title, Some(ts[i]));
      StreamStep(TextReport, head, before, prefix, ts, i, prev, Unlines(TextSection(title, ts[i])));
    }
    assert ts[..|ts|] == ts;
  }

  // ---------------------------------------------------------------------------
  // handleExport
  // ---------------------------------------------------------------------------

  /** `${fileName.split('.').slice(0, -1).join('.')}_report.${format}` */
  function ExportFileName(fileName: string, format: ExportFormat): string {
    DropLastSegment(fileName, '.') + "_report." + FormatText(format)
  }

  function MimeType(format: ExportFormat): string {
    match format
    case Json => "application/json"
    case Xml => "application/xml"
    case Csv => "text/csv"
    case Txt => "text/plain"
  }

  /** What `downloadFile` is handed. */
  datatype Download = Download(content: string, fileName: string, mimeType: string)

  /**
   * `handleExport(result, format)`: the download it starts, or None when building
   * the content throws (only the XML builder can). `stringify` stands for
   * `JSON.stringify(result, null, 2)` and `localize` for the date formatting.
   */
  method HandleExport(result: AnalysisResult, format: ExportFormat,
                      stringify: AnalysisResult -> string, localize: string -> string)
    returns (download: Option<Download>)
    ensures download.None? <==> format == Xml && XmlExportFails(result.mediaInfo)
    ensures download.Some? ==>
      && download.value.fileName == ExportFileName(result.fileName, format)
      && download.value.mimeType == MimeType(format)
    ensures download.Some? && format == Json ==> download.value.content == stringify(result)
    ensures download.Some? && format == Xml ==> Some(download.value.content) == ResultXml(result)
    ensures download.Some? && format == Csv ==> download.value.content == Unlines(CsvLines(result.mediaInfo))
    ensures download.Some? && format == Txt ==> download.value.content == Unlines(TextLines(result, localize))
  {
    var fileName := ExportFileName(result.fileName, format);
    var content: string;
    match format {
      case Json =>
        content := stringify(result);
      case Xml =>
        var xml := ToXmlText(JObject([("analysis", ResultToJs(result))]), "MediaQCPro");
        ResultXmlFailsIff(result);
        if xml.None? {
          return None;
        }
        content := xml.value;
      case Csv =>
        content := ToCsv(result.mediaInfo);
      case Txt =>
        content := ToTextSummary(result, localize);
    }
    download := Some(Download(content, fileName, MimeType(format)));
  }

  /** The report name keeps everything before the last dot and swaps the extension. */
  lemma ExportFileNameOf(base: string, extension: string, format: ExportFormat)
    requires '.' !in extension
    ensures ExportFileName(base + "." + extension, format) == base + "_report." + FormatText(format)
  {
    DropLastSegmentOf(base, extension, '.');
  }

  /** A name without a dot loses all of itself: the report is just `_report.<format>`. */
  lemma ExportFileNameNoDot(fileName: string, format: ExportFormat)
    requires '.' !in fileName
    ensures ExportFileName(fileName, format) == "_report." + FormatText(format)
  {
    DropLastSegmentSpec(fileName, '.');
  }

  /** The report's extension is always the format, and what precedes it ends in `_report`. */
  lemma ExportFileNameExtension(fileName: string, format: ExportFormat)
    ensures LastSegment(ExportFileName(fileName, format), '.') == FormatText(format)
    ensures DropLastSegment(ExportFileName(fileName, format), '.') == DropLastSegment(fileName, '.') + "_report"
  {
    var b := DropLastSegment(fileName, '.') + "_report";
    assert '.' !in FormatText(format);
    assert ExportFileName(fileName, format) == b + "." + FormatText(format);
    DropLastSegmentOf(b, FormatText(format), '.');
  }

  /** Each format has its own MIME type. */
  lemma MimeTypesDistinct(f1: ExportFormat, f2: ExportFormat)
    ensures MimeType(f1) == MimeType(f2) ==> f1 == f2
  {
  }

  // ---------------------------------------------------------------------------
  // Properties of the CSV table
  // ---------------------------------------------------------------------------

  /**
   * Reading a quoted field back as section 2 of RFC 4180 prescribes: drop the
   * enclosing quotes and read each pair of double quotes as one.
   */
  function Unquote(field: string): Option<string> {
    if |field| >= 2 && field[0] == '"' && field[|field| - 1] == '"' then Some(CollapseQuotes(field[1..|field| - 1]))
    else None
  }

  function CollapseQuotes(s: string): string
    decreases |s|
  {
    if |s| >= 2 && s[0] == '"' && s[1] == '"' then "\"" + CollapseQuotes(s[2..])
    else if s == [] then ""
    else [s[0]] + CollapseQuotes(s[1..])
  }

  lemma {:induction false} CollapseDoubleQuotes(s: string)
    ensures CollapseQuotes(DoubleQuotes(s)) == s
  {
    if s != [] {
      CollapseDoubleQuotes(s[1..]);
      var d := DoubleQuotes(s);
      if s[0] == '"' {
        assert d == "\"\"" + DoubleQuotes(s[1..]);
        assert d[2..] == DoubleQuotes(s[1..]);
      } else {
        assert d == [s[0]] + DoubleQuotes(s[1..]);
        assert d[1..] == DoubleQuotes(s[1..]);
      }
    }
  }

  /** Every value field reads back as `String(value)`. */
  lemma CsvFieldRoundTrip(v: Value)
    ensures Unquote(CsvField(v)) == Some(ToJsString(v))
  {
    var d := DoubleQuotes(ToJsString(v));
    assert CsvField(v)[1..|CsvField(v)| - 1] == d;
    CollapseDoubleQuotes(ToJsString(v));
  }

  /** Doubling quotes neither adds nor removes any other character. */
  lemma {:induction false} DoubleQuotesKeeps(s: string, c: char)
    requires c != '"'
    ensures c in DoubleQuotes(s) <==> c in s
  {
    if s != [] {
      DoubleQuotesKeeps(s[1..], c);
      assert s == [s[0]] + s[1..];
    }
  }

  /** A track added at the end adds its lines at the end. */
  lemma SectionsLast(report: Report, lts: seq<(string, Track)>, lt: (string, Track))
    ensures Sections(report, lts + [lt]) == Sections(report, lts) + TrackLines(report, lt.0, lt.1)
  {
    assert (lts + [lt])[..|lts|] == lts;
  }

  /** The lines of consecutive groups of tracks follow one another. */
  lemma {:induction false} SectionsAppend(report: Report, a: seq<(string, Track)>, b: seq<(string, Track)>)
    ensures Sections(report, a + b) == Sections(report, a) + Sections(report, b)
    decreases |b|
  {
    if b != [] {
      var b0 := b[..|b| - 1];
      var last := b[|b| - 1];
      assert b == b0 + [last];
      assert a + b == (a + b0) + [last];
      SectionsAppend(report, a, b0);
      SectionsLast(report, a + b0, last);
      SectionsLast(report, b0, last);
      var x, y, z := Sections(report, a), Sections(report, b0), TrackLines(report, last.0, last.1);
      assert (x + y) + z == x + (y + z);
    } else {
      assert a + b == a;
    }
  }

  /** Number of entries over all listed tracks. */
  function EntryCount(lts: seq<(string, Track)>): nat {
    if lts == [] then 0 else EntryCount(lts[..|lts| - 1]) + |lts[|lts| - 1].1|
  }

  /** The CSV holds a row for each entry of each track, besides the header. */
  lemma {:induction false} CsvRowCount(lts: seq<(string, Track)>)
    ensures |Sections(CsvReport, lts)| == EntryCount(lts)
  {
    if lts != [] {
      CsvRowCount(lts[..|lts| - 1]);
    }
  }

  lemma SectionsSingle(report: Report, trackType: string, t: Track)
    ensures Sections(report, [(trackType, t)]) == TrackLines(report, trackType, t)
  {
    var lts := [(trackType, t)];
    assert lts[..0] == [];
    assert Sections(report, lts[..0]) == [];
  }

  /** A leading track contributes its lines first. */
  lemma SectionsCons(report: Report, trackType: string, t: Track, rest: seq<(string, Track)>)
    ensures Sections(report, [(trackType, t)] + rest) == TrackLines(report, trackType, t) + Sections(report, rest)
  {
    SectionsAppend(report, [(trackType, t)], rest);
    SectionsSingle(report, trackType, t);
  }

  /** A track without entries adds no CSV rows, wherever it stands. */
  lemma EmptyTrackAddsNoRows(a: seq<(string, Track)>, trackType: string, b: seq<(string, Track)>)
    ensures Sections(CsvReport, a + [(trackType, [])] + b) == Sections(CsvReport, a + b)
  {
    var empty: seq<(string, Track)> := [(trackType, [])];
    SectionsAppend(CsvReport, a + empty, b);
    SectionsAppend(CsvReport, a, empty);
    SectionsAppend(CsvReport, a, b);
    SectionsSingle(CsvReport, trackType, []);
  }

  /** The table opens with its header, then the general track's rows in entry order. */
  lemma CsvOpening(info: MediaInfo)
    ensures CsvLines(info) == [CsvHeader] + CsvRows("General", info.general) + Sections(CsvReport, CsvTracks(info)[1..])
  {
    var lts := CsvTracks(info);
    assert lts == [("General", info.general)] + lts[1..];
    SectionsCons(CsvReport, "General", info.general, lts[1..]);
  }

  /** A null video track and an empty one give the same table. */
  lemma CsvNullVideoIsEmptyVideo(info: MediaInfo)
    ensures CsvLines(info.(video := None)) == CsvLines(info.(video := Some([])))
  {
    var g := [("General", info.general)];
    var streams := Numbered("Audio ", info.audio) + Numbered("Subtitle ", info.subtitles);
    assert CsvTracks(info.(video := None)) == g + streams;
    assert CsvTracks(info.(video := Some([]))) == g + [("Video", [])] + streams;
    EmptyTrackAddsNoRows(g, "Video", streams);
  }

  predicate SingleLine(s: string) {
    '\n' !in s
  }

  /** No key or printed value of the track holds a line break. */
  predicate TrackSingleLine(t: Track) {
    forall k :: 0 <= k < |t| ==> SingleLine(t[k].0) && SingleLine(ToJsString(t[k].1))
  }

  predicate LabelledSingleLine(lts: seq<(string, Track)>) {
    forall i :: 0 <= i < |lts| ==> SingleLine(lts[i].0) && TrackSingleLine(lts[i].1)
  }

  lemma CsvRowSingleLine(trackType: string, key: string, v: Value)
    requires SingleLine(trackType) && SingleLine(key) && SingleLine(ToJsString(v))
    ensures SingleLine(CsvRow(trackType, key, v))
  {
    var q := DoubleQuotes(ToJsString(v));
    DoubleQuotesKeeps(ToJsString(v), '\n');
    assert SingleLine("\"" + q + "\"");
    assert CsvField(v) == "\"" + q + "\"";
    assert SingleLine(trackType + "," + key + ",");
  }

  lemma {:induction false} CsvSectionsSingleLine(lts: seq<(string, Track)>)
    requires LabelledSingleLine(lts)
    ensures forall i :: 0 <= i < |Sections(CsvReport, lts)| ==> SingleLine(Sections(CsvReport, lts)[i])
  {
    if lts != [] {
      var (trackType, t) := lts[|lts| - 1];
      CsvSectionsSingleLine(lts[..|lts| - 1]);
      forall k | 0 <= k < |t|
        ensures SingleLine(CsvRows(trackType, t)[k])
      {
        CsvRowSingleLine(trackType, t[k].0, t[k].1);
      }
    }
  }

  lemma NumberedSingleLine(prefix: string, ts: seq<Track>)
    requires SingleLine(prefix)
    requires forall i :: 0 <= i < |ts| ==> TrackSingleLine(ts[i])
    ensures LabelledSingleLine(Numbered(prefix, ts))
  {
    forall i | 0 <= i < |ts|
      ensures SingleLine(Numbered(prefix, ts)[i].0)
    {
      var n := NatToString(i + 1);
      assert forall j :: 0 <= j < |n| ==> n[j] != '\n';
    }
  }

  /** No key or printed value in the media info holds a line break. */
  predicate InfoSingleLine(info: MediaInfo) {
    && TrackSingleLine(info.general)
    && (info.video.Some? ==> TrackSingleLine(info.video.value))
    && (forall i :: 0 <= i < |info.audio| ==> TrackSingleLine(info.audio[i]))
    && (forall i :: 0 <= i < |info.subtitles| ==> TrackSingleLine(info.subtitles[i]))
  }

  /**
   * When no key or value holds a line break, splitting the CSV at its line
   * breaks gives back exactly its header and rows, and an empty last piece.
   */
  lemma CsvSplitsIntoRows(info: MediaInfo)
    requires InfoSingleLine(info)
    ensures Split(Unlines(CsvLines(info)), '\n') == CsvLines(info) + [""]
  {
    CsvLinesSingleLine(info);
    SplitUnlines(CsvLines(info));
  }

  lemma CsvLinesSingleLine(info: MediaInfo)
    requires InfoSingleLine(info)
    ensures forall k :: 0 <= k < |CsvLines(info)| ==> SingleLine(CsvLines(info)[k])
  {
    var lts := CsvTracks(info);
    assert LabelledSingleLine(lts) by {
      var fixed := FixedTracks(info, "General", "Video");
      assert LabelledSingleLine(fixed);
      NumberedSingleLine("Audio ", info.audio);
      NumberedSingleLine("Subtitle ", info.subtitles);
      LabelledAppend(fixed, Numbered("Audio ", info.audio));
      LabelledAppend(fixed + Numbered("Audio ", info.audio), Numbered("Subtitle ", info.subtitles));
    }
    CsvSectionsSingleLine(lts);
    assert SingleLine(CsvHeader);
  }

  lemma LabelledAppend(a: seq<(string, Track)>, b: seq<(string, Track)>)
    requires LabelledSingleLine(a) && LabelledSingleLine(b)
    ensures LabelledSingleLine(a + b)
  {
    forall i | 0 <= i < |a + b|
      ensures SingleLine((a + b)[i].0) && TrackSingleLine((a + b)[i].1)
    {
      if i >= |a| { assert (a + b)[i] == b[i - |a|]; }
    }
  }

  // ---------------------------------------------------------------------------
  // Properties of the text report
  // ---------------------------------------------------------------------------

  /** The report opens with the file name, the date, a blank line, the QC heading and the summary. */
  lemma TextOpening(result: AnalysisResult, localize: string -> string)
    ensures TextLines(result, localize)[..5] ==
      [TitleLead + result.fileName, DateLead + localize(result.timestamp), "", QcHeader, result.qcSummary]
  {
  }

  /** The k-th issue is printed on line 5 + k, in order. */
  lemma TextIssueLine(result: AnalysisResult, localize: string -> string, k: nat)
    requires k < |result.qcIssues|
    ensures TextLines(result, localize)[5 + k] == IssueLine(result.qcIssues[k])
  {
  }

  /** Line 5 says there are no issues exactly when the result has none. */
  lemma TextNoIssuesIff(result: AnalysisResult, localize: string -> string)
    ensures |TextLines(result, localize)| > 5
    ensures TextLines(result, localize)[5] == NoIssues <==> |result.qcIssues| == 0
  {
    if |result.qcIssues| > 0 {
      assert TextLines(result, localize)[5][0] == '[';
    }
  }

  /** The severity is recoverable from a printed issue line. */
  lemma IssueLineSeverity(i1: QCIssue, i2: QCIssue)
    ensures IssueLine(i1) == IssueLine(i2) ==> i1.severity == i2.severity
  {
    if IssueLine(i1) == IssueLine(i2) {
      assert IssueLine(i1)[1] == IssueLine(i2)[1];
    }
  }

  /** Stream section titles print their number unchanged after the upper-cased word. */
  lemma StreamSectionHeader(n: nat)
    ensures SectionHeader("Audio Stream " + NatToString(n)) == "--- " + "AUDIO STREAM " + NatToString(n) + " ---"
    ensures SectionHeader("Subtitle Stream " + NatToString(n)) == "--- " + "SUBTITLE STREAM " + NatToString(n) + " ---"
  {
    StreamWordsUpper();
    NumberedHeader("Audio Stream ", "AUDIO STREAM ", n);
    NumberedHeader("Subtitle Stream ", "SUBTITLE STREAM ", n);
  }

  lemma NumberedHeader(word: string, upper: string, n: nat)
    requires ToUpper(word) == upper
    ensures SectionHeader(word + NatToString(n)) == "--- " + upper + NatToString(n) + " ---"
  {
    ToUpperAppend(word, NatToString(n));
    ToUpperDigits(NatToString(n));
  }

  lemma StreamWordsUpper()
    ensures ToUpper("Audio Stream ") == "AUDIO STREAM "
    ensures ToUpper("Subtitle Stream ") == "SUBTITLE STREAM "
  {
    assert ToUpper("Audio Stream ") == "AUDIO STREAM " by {
      var s := "Audio Stream ";
      assert forall i :: 0 <= i < |s| ==> UpperChar(s[i]) == "AUDIO STREAM "[i];
    }
    assert ToUpper("Subtitle Stream ") == "SUBTITLE STREAM " by {
      var s := "Subtitle Stream ";
      assert forall i :: 0 <= i < |s| ==> UpperChar(s[i]) == "SUBTITLE STREAM "[i];
    }
  }

  /**
   * Unlike the CSV, the text report tells a null video track from an empty one:
   * the empty one still gets its heading and blank line.
   */
  lemma TextEmptyVideoHasHeading(result: AnalysisResult, localize: string -> string)
    ensures |TextLines(result.(mediaInfo := result.mediaInfo.(video := Some([]))), localize)| ==
      |TextLines(result.(mediaInfo := result.mediaInfo.(video := None)), localize)| + 2
  {
    var info := result.mediaInfo;
    var g := [("General", info.general)];
    var streams := Numbered("Audio Stream ", info.audio) + Numbered("Subtitle Stream ", info.subtitles);
    var v := [("Video", [])];
    assert TextTracks(info.(video := None)) == g + streams;
    assert TextTracks(info.(video := Some([]))) == (g + v) + streams;
    SectionsAppend(TextReport, g, streams);
    SectionsAppend(TextReport, g + v, streams);
    SectionsAppend(TextReport, g, v);
    assert Sections(TextReport, v) == TextSection("Video", []) by {
      assert v[..0] == [];
    }
  }
}
