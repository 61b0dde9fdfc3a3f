# MediaQC Pro — a verified model of the QC core

MediaQC Pro is a browser tool that reads the technical metadata of media
files, runs a fixed set of quality-control rules over it, shows the issues
found, compares several files side by side, keeps a history of analyses and
exports a result as JSON, XML, CSV or a plain-text report. This Dafny project
models the deterministic core of that tool and proves what it promises.

The model has one module per source file:

| module | file | models |
|---|---|---|
| `Types` | `types.dfy` | the records of `types.ts`: tracks as ordered attribute lists, media info, severities, issues, results, export formats |
| `JsText`, `JsNumber`, `JsValues` | `js_text.dfy`, `js_number.dfy`, `js_value.dfy` | the ECMAScript behaviour the core relies on: `split`/`join`, `replace`, case mapping, `includes`, `parseFloat`, `Math.abs`, `String(v)`, property access |
| `QcAnalyzer` | `qc_analyzer.dfy` | `analyzeQC`: a method that pushes issues in two loops, proved equal to a declarative list of the firing rule slots in rule order |
| `XmlExport` | `xml_export.dfy` | `toXML`/`toXmlRecursive` as methods with loops and recursion, proved equal to a recursive function. Throwing is an explicit `None` outcome, characterised exactly |
| `ExportManager` | `export_manager.dfy` | `toCSV` and `toTextSummary` as string-building methods proved equal to their line lists, plus the file name and MIME type of `handleExport` |
| `ComparisonView` | `comparison_view.dfy` | the key union `allKeys` (nested loops over a `Set`), the rows, strict-equality divergence and the status dot |
| `EncodeSetView` | `encode_set_view.dfy` | the safe path lookup `get` with `name[i]` segments, the eleven columns, the visible columns, the rows and the N/A footnote |
| `QcSummaryPanel`, `HistoryPanel` | `qc_summary_panel.dfy`, `history_panel.dfy` | the overall status (Error beats Warning beats Pass), severity styling, the summary line, issue cards, the history status and table |
| `GeminiService` | `gemini_service.dfy` | which fixed text `generateQCSummary` returns, and `String.prototype.trim` on the reply |
| `App` | `app.dfy` | the state of `App.tsx` as a class: the all-or-nothing batch, the history handlers, the view switches, the theme toggle and the render dispatch |

Opaque collaborators are parameters:

- the formatting of doubles in detail text (`NumberText`);
- `JSON.stringify` (`stringify`);
- `toLocaleString` (`localize`);
- the API key;
- the summary model's reply;
- the settled outcome of the `Promise.all` fan-out (`BatchOutcome`).

Where the code behaves differently from what its names, messages or
comments suggest, the model follows the code:

- **Duration parse:** a duration that is absent or empty reads as `'0'`. A non-numeric duration makes `parseFloat` yield NaN, and the `> 0.5` test is false. So an unreadable duration never raises a mismatch; it does not behave as 0 (`QcAnalyzer.UnreadableDurationNeverMismatches`).
- **Summary key check:** `generateQCSummary` checks for the API key before it looks at the issues. A missing key wins even for an issue-free file.
- **XML export is not total:** `toString()` is called on `null`/`undefined` leaves. A result without a video track cannot be exported as XML, and neither can one with a track holding an undefined entry (`XmlExport.ResultXmlFailsIff`).
- **Divergence at N = 1:** strict equality makes NaN unequal to itself. So a comparison row whose only value is NaN is highlighted as divergent, even with a single result (`ComparisonView.AllSameSingle`).
- **Language tag:** a track whose `language` is present but falsy (`""` or `0`) still raises `missing_lang_i`.

## Model

| member | source | states |
|---|---|---|
| Types.EnumTextsDistinct | types.ts:37-42 | distinct export formats have distinct extensions (`json`, `xml`, `csv`, `txt`), and distinct severities print differently |
| Types.KeysIff | types.ts:4-6 | `Object.keys(track)` has one key per entry; a key is listed iff some entry has it; every key that reads as a defined value is listed |
| Types.LookupFound | types.ts:4-6 | a defined attribute read from a track is the value of an entry with that key; a key the track does not have reads as undefined |
| Types.AnySeverityIff | components/QCSummaryPanel.tsx:36 | `issues.some(i => i.severity === s)` holds iff some issue has severity s |
| JsText.NatToString | services/qcAnalyzer.ts:47 | `${index}` is a non-empty string of decimal digits |
| JsText.DecimalValueOfNatToString | services/qcAnalyzer.ts:47 | reading a rendered index back as a decimal gives the index |
| JsText.NatToStringInjective | services/qcAnalyzer.ts:47 | distinct indices render as distinct strings |
| JsText.Split | services/exportManager.ts:104 | `split` on one character gives at least one piece, no piece holds the separator, and there is one piece iff the separator does not occur |
| JsText.JoinSplit | services/exportManager.ts:104 | joining the pieces of a split with the same separator gives back the string |
| JsText.DropLastSegmentSpec | services/exportManager.ts:104 | `split('.').slice(0, -1).join('.')` is empty when there is no dot; otherwise the name is that prefix, a dot, and a dot-free last piece |
| JsText.DropLastSegmentOf | services/exportManager.ts:104 | for `b + '.' + tail` with a dot-free tail, the kept part is exactly `b` and the last piece exactly `tail` |
| JsText.ReplaceAll | services/exportManager.ts:90 | `replace(/x/g, y)` keeps the length, turns every x into y, leaves other characters alone, and leaves no x behind |
| JsText.IncludesIff | services/qcAnalyzer.ts:30 | `includes(sub)` holds iff sub occurs at some position |
| JsText.AppendLine | services/exportManager.ts:61 | appending `line + '\n'` to a line-built text extends its list of lines by that line |
| JsText.SplitUnlines | services/exportManager.ts:61 | splitting a text built from newline-terminated lines at `\n` gives back exactly those lines and a final empty piece |
| JsNumber.ParseFloatFromDigit | services/qcAnalyzer.ts:41 | `parseFloat` of a text that starts with a digit reads an unsigned decimal from the start |
| JsNumber.ParseDecimal | services/qcAnalyzer.ts:41 | `parseFloat("<digits>.<digits><unit>")` is the decimal value, whatever non-numeric suffix follows |
| JsNumber.ParseWhole | services/qcAnalyzer.ts:41 | `parseFloat` of digits without a fraction or exponent is their integer value |
| JsNumber.DifferByMoreThanHalf | services/qcAnalyzer.ts:44-45 | `Math.abs(a - b) > 0.5` holds iff the finite values differ by more than 0.5, or the infinities have opposite signs, or exactly one side is infinite; it is false when either side is NaN |
| JsValues.ToStringOfValue | services/exportManager.ts:48 | a track value converted to a JavaScript value prints as `String(value)`, and is null or undefined iff it is undefined |
| JsValues.TrackProperty | components/EncodeSetView.tsx:20 | reading a key of a track object gives the track's attribute, undefined when absent |
| QcAnalyzer.RuleOfIdRuleId | services/qcAnalyzer.ts:12-60 | every issue id names its rule and track index: reading the id back gives the rule slot |
| QcAnalyzer.RuleIdInjective | services/qcAnalyzer.ts:12-60 | distinct rule slots never share an issue id |
| QcAnalyzer.IssueForIdentity | services/qcAnalyzer.ts:11-64 | the issue a rule pushes carries the rule's id and severity (Error only for missing audio and missing video) |
| QcAnalyzer.ReadsDuration | services/qcAnalyzer.ts:41-43 | a duration written `whole.frac` followed by a unit reads as that decimal number |
| QcAnalyzer.AnalyzeQC | services/qcAnalyzer.ts:5-69 | the list the five rules push is exactly the issues of the firing rule slots, in rule order |
| QcAnalyzer.CheckDurations | services/qcAnalyzer.ts:40-54 | the mismatch loop appends the issue of each audio track whose duration differs from the video's by more than 0.5, by ascending index, and nothing without video or audio |
| QcAnalyzer.CheckLanguages | services/qcAnalyzer.ts:57-66 | the language loop appends one missing-language issue per track whose `language` is falsy, by ascending index |
| QcAnalyzer.DurationStep | services/qcAnalyzer.ts:43-51 | the mismatch slot of track i fires iff the loop's test holds, and its issue is the one the loop pushes |
| QcAnalyzer.LangStep | services/qcAnalyzer.ts:58-64 | the language slot of track i fires iff its `language` is falsy, and its issue is the one the loop pushes |
| QcAnalyzer.DurationPush | services/qcAnalyzer.ts:42-53 | one turn of the mismatch loop extends the pushed list to the issues of the next slot prefix |
| QcAnalyzer.LangPush | services/qcAnalyzer.ts:57-66 | one turn of the language loop extends the pushed list to the issues of the next slot prefix |
| QcAnalyzer.PushStep | services/qcAnalyzer.ts:10-37 | pushing a rule's issue exactly when it fires extends the list by that rule's issue |
| QcAnalyzer.FilterMembers | services/qcAnalyzer.ts:9-68 | a rule slot is kept iff it is listed and fires, and no more slots are kept than listed |
| QcAnalyzer.RuleOrderAt | services/qcAnalyzer.ts:9-68 | for n audio tracks there are 3 + 2n slots: the three single rules, then n mismatches, then n missing languages |
| QcAnalyzer.InRuleOrder | services/qcAnalyzer.ts:40-66 | a slot is checked iff its track index, if any, is below the number of audio tracks |
| QcAnalyzer.IssuesInRuleOrder | services/qcAnalyzer.ts:9-68 | one issue per firing slot, in strictly ascending rule order: VFR, missing audio, missing video, mismatches by index, missing languages by index; nothing short-circuits |
| QcAnalyzer.IssueIdsOfFired | services/qcAnalyzer.ts:9-68 | the issue ids are the ids of the firing slots, in order |
| QcAnalyzer.IssueIdsDistinct | services/qcAnalyzer.ts:11-64 | ids within one run are pairwise distinct; no issue is a Pass; only `missing_audio` and `missing_video` are Errors |
| QcAnalyzer.IssuedOnlyIfFires | services/qcAnalyzer.ts:9-68 | a rule's id appears only when its condition holds |
| QcAnalyzer.IssuedIfFires | services/qcAnalyzer.ts:9-68 | a rule whose condition holds always has its id among the issues |
| QcAnalyzer.IssuedIffFires | services/qcAnalyzer.ts:9-68 | a rule's id appears iff its condition holds |
| QcAnalyzer.RuleConditions | services/qcAnalyzer.ts:10-37 | `vfr_detected` iff video exists with `frame_rate_mode` exactly "VFR"; `missing_audio` iff video exists and no audio; `missing_video` iff no video and the lower-cased format does not contain "audio" (absent format included) |
| QcAnalyzer.TrackConditions | services/qcAnalyzer.ts:40-66 | `duration_mismatch_i` iff video exists, track i exists and the durations differ by more than 0.5; `missing_lang_i` iff track i exists and its language is falsy |
| QcAnalyzer.AbsentDurationIsZero | services/qcAnalyzer.ts:41-43 | an absent or empty duration reads as 0 seconds |
| QcAnalyzer.UnreadableDurationNeverMismatches | services/qcAnalyzer.ts:44-45 | when either duration parses to NaN, no mismatch is raised for that track |
| QcAnalyzer.RuleExclusions | services/qcAnalyzer.ts:20-66 | `missing_audio` never appears with `missing_video` or any `duration_mismatch_i`; there are at most 2 + 2n issues for n audio tracks |
| QcAnalyzer.SinglesAtMostTwo | services/qcAnalyzer.ts:10-37 | at most two of the three single rules fire |
| QcAnalyzer.OneTrackFired | services/qcAnalyzer.ts:9-68 | with one audio track, the firing slots are those of the five slots that fire, in order |
| QcAnalyzer.MismatchVideoDuration | services/mediaParser.ts:59 | the fixture's video duration `125.0s` reads as 125.0 |
| QcAnalyzer.MismatchAudioDuration | services/mediaParser.ts:60 | the fixture's audio duration `120.5s` reads as 120.5 |
| QcAnalyzer.MismatchDurationFires | services/mediaParser.ts:56-61 | 125.0s of video against 120.5s of audio raises the mismatch of track 0 |
| QcAnalyzer.MismatchSinglesQuiet | services/mediaParser.ts:56-61 | the mismatch fixture (CFR video with audio) raises none of the single rules |
| QcAnalyzer.MismatchRecordFired | services/mediaParser.ts:56-61 | the mismatch fixture fires exactly the duration-mismatch slot of track 0 |
| QcAnalyzer.MismatchRecordIssues | services/mediaParser.ts:56-61 | analysing the mismatch fixture gives exactly the ids `["duration_mismatch_0"]` |
| QcAnalyzer.AudioOnlyFormat | services/mediaParser.ts:73 | the format `MPEG Audio` lower-cased contains "audio" |
| QcAnalyzer.AudioOnlyRecordFired | services/mediaParser.ts:69-88 | the audio-only fixture fires exactly the missing-language slot of its track |
| QcAnalyzer.AudioOnlyRecordIssues | services/mediaParser.ts:69-88 | analysing the audio-only fixture gives exactly `["missing_lang_0"]`: no missing video, because the format says audio |
| QcSummaryPanel.OverallStatusIff | components/QCSummaryPanel.tsx:36-38 | Error iff some issue is an Error; Warning iff none is an Error and some is a Warning; Pass otherwise, including no issues |
| QcSummaryPanel.OverallStatusOfPasses | components/QCSummaryPanel.tsx:38 | no issues, or only Pass issues, give Pass |
| QcSummaryPanel.OverallStatusMonotone | components/QCSummaryPanel.tsx:36-38 | adding issues never improves the overall status |
| QcSummaryPanel.SeverityStylesDistinct | components/QCSummaryPanel.tsx:12-33 | each severity has its own icon and background, so the styling identifies the severity |
| QcSummaryPanel.SummaryLoadingIff | components/QCSummaryPanel.tsx:50 | for the summary `generateQCSummary` writes, the panel shows `AI-generated summary loading...` iff the model was asked and its reply trims to nothing (or to that text); the not-configured, all-passed and API-error texts show as themselves |
| QcSummaryPanel.SummaryPanelCards | components/QCSummaryPanel.tsx:55-79 | the single "No Issues Detected" card iff there are no issues; otherwise one card per issue, in order, styled by its severity |
| QcSummaryPanel.SummaryPanelBanner | components/QCSummaryPanel.tsx:40-49 | the banner shows the error icon iff some issue is an Error, and the heading reads "Overall Status: Pass" iff there is no Error and no Warning |
| HistoryPanel.GetStatusAgrees | components/HistoryPanel.tsx:14-22 | the history status is the summary panel's overall status with Error renamed Fail, and it has the same icon |
| HistoryPanel.GetStatusIff | components/HistoryPanel.tsx:14-22 | `Fail` iff some issue is an Error; `Warning` iff none is an Error and some is a Warning; `Pass` otherwise |
| HistoryPanel.HistoryBodyRows | components/HistoryPanel.tsx:34-53 | the empty-history message shows iff the history is empty, which is when Clear is disabled; otherwise one row per stored result, in stored order, each with its status |
| ComparisonView.AllKeys | components/ComparisonView.tsx:43-50 | the nested loops collect exactly the first-seen key union |
| ComparisonView.AddKeysSpec | components/ComparisonView.tsx:47 | `keySet.add` keeps the known keys in front and in order, adds exactly the new ones, and never repeats a key |
| ComparisonView.FirstSeenKeysSpec | components/ComparisonView.tsx:43-50 | a key is listed iff some result's track has it, and no key is listed twice |
| ComparisonView.FirstSeenKeysPrefix | components/ComparisonView.tsx:43-50 | the keys of the first i results come first, in the same order (first-seen order) |
| ComparisonView.NullTrackAddsNoKeys | components/ComparisonView.tsx:46-47 | a result whose track is null adds no key |
| ComparisonView.CellValues | components/ComparisonView.tsx:97 | a row has exactly one value per result |
| ComparisonView.CellValue | components/ComparisonView.tsx:97 | a cell is undefined when the result's track is null or lacks the key; otherwise it is the value of that key's entry |
| ComparisonView.EveryIff | components/ComparisonView.tsx:18 | `every(v => v === first)` holds iff every value is strictly equal to first |
| ComparisonView.AllSameIff | components/ComparisonView.tsx:18 | `allSame` holds iff every value is strictly equal to the first; then the first is not NaN |
| ComparisonView.AllSameSingle | components/ComparisonView.tsx:18 | a single value is uniform iff it is not NaN |
| ComparisonView.AllSameStrict | components/ComparisonView.tsx:18 | a number and a string with the same text differ; two undefined cells agree |
| ComparisonView.CellTextDefined | components/ComparisonView.tsx:23 | a missing value shows `N/A`; any other value shows `String(value)`, so `0` and `""` show as themselves |
| ComparisonView.SectionRowsShape | components/ComparisonView.tsx:84-98 | one row per key of the union, with one cell per result, an underscore-free label, and highlighting iff some value is not strictly equal to the first |
| ComparisonView.StatusColorIff | components/ComparisonView.tsx:11-15 | `bg-danger` iff the overall status is Error, `bg-warning` iff Warning, `bg-success` iff Pass |
| EncodeSetView.WordRunChars | components/EncodeSetView.tsx:13 | the greedy `\w+` run holds only word characters and is followed by a non-word character or the end |
| EncodeSetView.MatchAtSpec | components/EncodeSetView.tsx:13-16 | a match is a non-empty word run, `[`, a non-empty digit run and `]`, written at the match position, with the two groups captured |
| EncodeSetView.NoBracketNoMatch | components/EncodeSetView.tsx:13 | a segment without `[` never matches, so it is read as a plain property name |
| EncodeSetView.FindMatchLeftmost | components/EncodeSetView.tsx:13 | `part.match` finds the leftmost position where the pattern occurs, or nothing when it occurs nowhere |
| EncodeSetView.WalkAppend | components/EncodeSetView.tsx:10-21 | the `reduce` over a path is the reduce over its first segments continued over the rest |
| EncodeSetView.WalkFromNullish | components/EncodeSetView.tsx:11 | once a step yields null or undefined, every later step yields undefined |
| EncodeSetView.GetDefault | components/EncodeSetView.tsx:9-24 | if any prefix of the path walks to null or undefined, `get` returns the default |
| EncodeSetView.GetValue | components/EncodeSetView.tsx:23 | with a defined default, `get` never yields null or undefined; a defined value is returned as is, even `0` or `""` |
| EncodeSetView.IndexedStep | components/EncodeSetView.tsx:14-18 | `name[i]` yields undefined when `acc[name]` is not an array or i is out of range, and the i-th item otherwise |
| EncodeSetView.AudioSegmentMatch | components/EncodeSetView.tsx:37 | the segment `audio[0]` matches with array key `audio` and index 0 |
| EncodeSetView.VideoLookup | components/EncodeSetView.tsx:30-36 | `get(mediaInfo, 'video.<key>')` is N/A without a video track, else the attribute, N/A when it is missing |
| EncodeSetView.FirstAudioLookup | components/EncodeSetView.tsx:37-39 | `get(mediaInfo, 'audio[0].<key>')` is N/A with no audio track, else the first track's attribute, N/A when it is missing |
| EncodeSetView.ColumnsLayout | components/EncodeSetView.tsx:28-40 | exactly eleven columns: `File_Name` first, then seven video paths and three paths into the first audio track (`sample_rate`, `bit_rate`, `profile`) |
| EncodeSetView.KeysPlain | components/EncodeSetView.tsx:30-39 | no key a column reads holds a dot or a bracket |
| EncodeSetView.CellMeaning | components/EncodeSetView.tsx:28-40 | each video column shows the video track's attribute, or N/A without video; each audio column shows the first audio track's attribute, or N/A without audio |
| EncodeSetView.VisibleColumnsIff | components/EncodeSetView.tsx:43 | with more than one result all eleven columns show; otherwise exactly the `File_Name` column is dropped |
| EncodeSetView.TableRowsShape | components/EncodeSetView.tsx:54-62 | one row per result, in order, with one cell per visible column, starting with the file name when several results are shown |
| EncodeSetView.NoteShownIff | components/EncodeSetView.tsx:65-67 | the N/A footnote shows iff some result has no video track or no audio track |
| EncodeSetView.MissingStreamCells | components/EncodeSetView.tsx:65-66 | a result without video shows N/A in every video column, and one without audio in every audio column |
| ExportManager.CsvRows | services/exportManager.ts:59-62 | one CSV row per entry of the track |
| ExportManager.EntryLines | services/exportManager.ts:89-91 | one `key: value` line per entry of the track |
| ExportManager.IssueLines | services/exportManager.ts:78-80 | one report line per issue |
| ExportManager.AddTrackToCsv | services/exportManager.ts:57-63 | a null track adds nothing; otherwise one `label,key,"value"` line per entry, in entry order |
| ExportManager.ToCsv | services/exportManager.ts:55-69 | the CSV is the header line, then the rows of General, Video (when present), `Audio i`, `Subtitle i`, each line ended by `\n` |
| ExportManager.StreamStep | services/exportManager.ts:66-67 | writing stream i+1's lines after those of streams 1..i gives the lines of streams 1..i+1 |
| ExportManager.AddStreamsToCsv | services/exportManager.ts:66-67 | the `forEach` over streams appends the rows of each stream under its 1-based label |
| ExportManager.AddIssuesToText | services/exportManager.ts:78-80 | one `[severity] description: details` line per issue, in issue order |
| ExportManager.AddTrackToText | services/exportManager.ts:86-93 | a null track adds nothing; otherwise the upper-cased `--- TITLE ---` line, one line per entry, and a blank line |
| ExportManager.WritePreamble | services/exportManager.ts:72-76 | the report opens with the file-name line, the date line, a blank line, the QC heading and the summary |
| ExportManager.WriteIssueBlock | services/exportManager.ts:77-84 | the issue lines, or the single `No issues found.` line, then a blank line |
| ExportManager.ToTextSummary | services/exportManager.ts:71-101 | the report is the preamble, the issue block, then the sections of General, Video (when present), each audio stream and each subtitle stream |
| ExportManager.AddStreamsToText | services/exportManager.ts:97-98 | the `forEach` over streams appends one section per stream, titled with its 1-based number |
| ExportManager.HandleExport | services/exportManager.ts:103-121 | the download has the derived file name and the format's MIME type, with the JSON, XML, CSV or text content; there is no download exactly when XML is asked for and the XML builder throws |
| ExportManager.ExportFileNameOf | services/exportManager.ts:104-105 | `base.ext` exports as `base_report.<format>`: only the final extension is stripped, earlier dots are kept |
| ExportManager.ExportFileNameNoDot | services/exportManager.ts:104-105 | a name without a dot exports as `_report.<format>` |
| ExportManager.ExportFileNameExtension | services/exportManager.ts:104-105 | the exported name's extension is the format, and what precedes it is the stripped name followed by `_report` |
| ExportManager.MimeTypesDistinct | services/exportManager.ts:107-120 | each format has its own MIME type |
| ExportManager.CollapseDoubleQuotes | services/exportManager.ts:60 | reading every `""` as `"` undoes the quote doubling |
| ExportManager.CsvFieldRoundTrip | services/exportManager.ts:60 | stripping a value field's outer quotes and collapsing `""` gives back `String(value)`, as section 2 of RFC 4180 reads it |
| ExportManager.DoubleQuotesKeeps | services/exportManager.ts:60 | doubling quotes neither adds nor removes any other character |
| ExportManager.SectionsAppend | services/exportManager.ts:64-67 | the lines of consecutive groups of tracks follow one another |
| ExportManager.CsvRowCount | services/exportManager.ts:59-62 | the CSV has one row per entry over all listed tracks, besides the header |
| ExportManager.EmptyTrackAddsNoRows | services/exportManager.ts:58-62 | a track without entries adds no CSV rows, wherever it stands |
| ExportManager.CsvOpening | services/exportManager.ts:56-64 | the CSV opens with the header, then the General rows in entry order |
| ExportManager.CsvNullVideoIsEmptyVideo | services/exportManager.ts:57-65 | a null video track and an empty one give the same CSV |
| ExportManager.CsvRowSingleLine | services/exportManager.ts:60-61 | a row holds no line break when its label, key and value hold none |
| ExportManager.CsvSectionsSingleLine | services/exportManager.ts:59-61 | every row of line-break-free tracks is a single line |
| ExportManager.NumberedSingleLine | services/exportManager.ts:66-67 | the labels `Audio i` and `Subtitle i` hold no line break |
| ExportManager.CsvLinesSingleLine | services/exportManager.ts:55-69 | when no key or value holds a line break, every CSV line is a single line |
| ExportManager.CsvSplitsIntoRows | services/exportManager.ts:55-69 | then splitting the CSV at `\n` gives exactly the header and the rows, then an empty piece |
| ExportManager.TextOpening | services/exportManager.ts:72-76 | the first five report lines are the title with the file name, the date, a blank line, `--- QC SUMMARY ---` and the summary |
| ExportManager.TextIssueLine | services/exportManager.ts:78-80 | issue k is printed on line 5 + k |
| ExportManager.TextNoIssuesIff | services/exportManager.ts:77-83 | line 5 reads `No issues found.` iff there are no issues |
| ExportManager.IssueLineSeverity | services/exportManager.ts:79 | the severity can be read back from a printed issue line |
| ExportManager.NumberedHeader | services/exportManager.ts:88 | upper-casing a numbered title keeps its number |
| ExportManager.StreamSectionHeader | services/exportManager.ts:97-98 | stream sections are headed `--- AUDIO STREAM n ---` and `--- SUBTITLE STREAM n ---` |
| ExportManager.TextEmptyVideoHasHeading | services/exportManager.ts:86-93 | unlike the CSV, the report has two more lines (heading and blank line) for an empty video track than for a null one |
| XmlExport.XmlRecursive | services/exportManager.ts:18-51 | the recursive builder gives the rendering of its value, or throws (None) exactly where the specification function does |
| XmlExport.ArrayToXml | services/exportManager.ts:20-23 | an array renders as one indented line per item, each item one tab deeper |
| XmlExport.ObjectToXml | services/exportManager.ts:24-46 | an object renders as its attributes, then `/>` or `>`, its children and the closing tag, indented when the children end a line |
| XmlExport.AttributesToXml | services/exportManager.ts:25-34 | the first loop renders every `@` key as ` key="value"` without the `@`, and reports whether some key is not an attribute |
| XmlExport.ChildrenToXml | services/exportManager.ts:35-44 | the second loop adds `#text` raw, `#cdata` wrapped in `<![CDATA[...]]>`, and every other non-attribute key as a child element |
| XmlExport.ToXmlText | services/exportManager.ts:16-53 | the document is the XML declaration followed by the root element |
| XmlExport.HasChildIff | services/exportManager.ts:25-34 | `hasChild` is set iff some key is not an `@` key |
| XmlExport.AttributesXmlFailsIff | services/exportManager.ts:27-33 | the attribute loop throws iff some `@` key holds null or undefined |
| XmlExport.ItemsXmlFailsIff | services/exportManager.ts:20-23 | the array branch throws iff some item does |
| XmlExport.ChildrenXmlFailsIff | services/exportManager.ts:36-44 | the child loop throws iff some element-keyed value does |
| XmlExport.XmlFailsIff | services/exportManager.ts:18-51 | `toXmlRecursive` throws iff a null or undefined value reaches a `toString()` call |
| XmlExport.TrackThrowsIff | services/exportManager.ts:36-48 | a track object throws iff it has an undefined entry rendered through `toString()` |
| XmlExport.TracksThrowIff | services/exportManager.ts:20-23 | a list of tracks throws iff some track does |
| XmlExport.MediaInfoFieldsThrow | services/exportManager.ts:36-48 | a media-info object throws iff one of its four members does, and a null `video` always does |
| XmlExport.MediaInfoThrowsIff | services/exportManager.ts:36-48 | a media-info object throws iff it has no video track or some track has an undefined entry |
| XmlExport.IssuesNeverThrow | services/exportManager.ts:48 | the issue list never throws: every field is a string |
| XmlExport.ResultThrowsIff | services/exportManager.ts:112 | a result object throws iff its media info does |
| XmlExport.ResultXmlFailsIff | services/exportManager.ts:111-113 | the XML export of a result fails iff the result has no video track or some track has an undefined entry |
| XmlExport.LeafXml | services/exportManager.ts:47-49 | a defined scalar renders as `ind<name>String(v)</name>` |
| XmlExport.TrackChildren | services/exportManager.ts:36-44 | over a track whose keys are plain names and whose values are defined, the child loop emits `ind\t<key>value</key>` per entry, in entry order, with no line breaks |
| XmlExport.TrackXml | services/exportManager.ts:24-46 | such a track renders as `ind<name>`, its leaf elements, and `</name>` on the same line; an empty track as `ind<name/>` |
| XmlExport.TracksXml | services/exportManager.ts:20-23 | a list of such tracks renders as repeated sibling elements named after the field: per track, `ind`, the element one tab deeper (so indented twice), and a line break, in list order |
| XmlExport.AttributeAndText | services/exportManager.ts:27-38 | `{ '@attr': a, '#text': s }` renders as `ind<name attr="a">s</name>`: the `@` is stripped, the text is inserted raw, and `ind` precedes the closing tag only when s ends a line |
| XmlExport.CdataElement | services/exportManager.ts:39-40 | `{ '#cdata': s }` renders as `ind<name><![CDATA[s]]></name>` |
| XmlExport.NoAttributes | services/exportManager.ts:27-33 | without `@` keys the attribute loop adds nothing |
| XmlExport.XmlObjectShape | services/exportManager.ts:24-46 | an object element opens with `<name`; it closes with `</name>` when some key is not an attribute, and is otherwise exactly `<name attributes/>` |
| XmlExport.ItemsXmlLines | services/exportManager.ts:20-23 | an empty array renders as nothing; otherwise at least one line per item, ending with a line break |
| XmlExport.ResultChildrenEnd | services/exportManager.ts:45 | the children of a result end in `>`, because the last child is the `qcSummary` scalar |
| XmlExport.ElementWithChildren | services/exportManager.ts:34-45 | an element without attributes whose children do not end a line closes on the same line |
| XmlExport.SingleChild | services/exportManager.ts:41-42 | a single element-keyed field renders as that child, one tab deeper |
| XmlExport.SingleElementRoot | services/exportManager.ts:24-46 | a root object with one element child renders as that child inside the root's tags |
| XmlExport.AnalysisElement | services/exportManager.ts:112 | an exportable result renders as one `analysis` element whose closing tag is not indented |
| XmlExport.RootElement | services/exportManager.ts:112 | `{ analysis: x }` renders as the `analysis` element inside `<MediaQCPro>...</MediaQCPro>` |
| XmlExport.DocumentShape | services/exportManager.ts:52 | the document is the declaration, `<MediaQCPro>\t<analysis>`, the children, then `</analysis></MediaQCPro>` |
| XmlExport.ResultXmlShape | services/exportManager.ts:111-113 | an exportable result gives a document that starts with the declaration and `<MediaQCPro>\t<analysis>` and ends with `</analysis></MediaQCPro>` |
| GeminiService.TrimStart | services/geminiService.ts:42 | dropping leading white space leaves a suffix; only white space was dropped, and the rest starts with a non-space |
| GeminiService.TrimEnd | services/geminiService.ts:42 | dropping trailing white space leaves a prefix; only white space was dropped, and the rest ends with a non-space |
| GeminiService.TrimBounds | services/geminiService.ts:42 | the trimmed text is the slice between the leading and the trailing white space |
| GeminiService.TrimSpec | services/geminiService.ts:42 | `trim()` cuts only white space from either end, and the result neither starts nor ends with white space |
| GeminiService.TrimIdempotent | services/geminiService.ts:42 | trimming twice changes nothing more |
| GeminiService.TrimEmptyIff | services/geminiService.ts:42 | a reply trims to nothing iff it is all white space |
| GeminiService.GenerateQcSummaryCases | services/geminiService.ts:13-47 | no key gives the not-configured text, even for an issue-free file; with a key, no issues give the all-passed text; otherwise the trimmed reply, or the API-error text when the call throws |
| GeminiService.GenerateQcSummaryEmptyIff | services/geminiService.ts:13-47 | the summary is empty, so that the panel shows its loading text, iff the model was asked and replied with white space only |
| App.BatchResultsSpec | App.tsx:39-56 | one result per file, in file order; each has the file's name and media info, the rule engine's issues, the id `<file name>-<id time>`, its own timestamp, and the summary `generateQCSummary` writes for those issues, which is the all-passed text for an issue-free file when a key is configured |
| App.BatchConsistent | App.tsx:58-59 | a new batch, and the batch prepended to a consistent history, carry the rule engine's issues for their media info |
| App.ConsistentAppend | App.tsx:59 | joining two consistent result lists keeps them consistent |
| App.FlipInvolutive | App.tsx:29-31 | toggling changes the theme, and toggling twice restores it |
| App.RenderContentIff | App.tsx:87-107 | the history view wins; otherwise the analysis view shows iff loading or results exist; otherwise the upload zone with the error |
| App.AppState.constructor | App.tsx:14-19 | the stored theme (dark by default) and stored history (empty by default); no results, not loading, no error, the upload view |
| App.AppState.ToggleTheme | App.tsx:29-31 | swaps light and dark and changes nothing else |
| App.AppState.BeginBatch | App.tsx:34-36 | sets loading, clears the error and the results |
| App.AppState.AnalyzeFiles | App.tsx:39-56 | running `analyzeQC` and the summary on each file in turn gives exactly the batch's results |
| App.AppState.CompleteBatch | App.tsx:58-65 | on success the results become the batch, the batch is prepended to the history and the view becomes analysis; on failure the error is the message or the unknown-error text, the view becomes upload and the history is untouched; loading ends either way |
| App.AppState.HandleFiles | App.tsx:33-67 | `handleFiles` is all-or-nothing: the whole batch enters the history ahead of the old entries, or the history is unchanged and the results stay empty; loading ends; consistency of the history is preserved |
| App.AppState.ViewHistory | App.tsx:69-71 | the view becomes history, so the history panel shows; nothing else changes |
| App.AppState.ShowUpload | App.tsx:73-76 | clears the results and shows the upload view |
| App.AppState.ClearHistory | App.tsx:78-80 | empties the history and changes nothing else |
| App.AppState.Reanalyze | App.tsx:82-85 | the stored result becomes the only current result and the analysis view shows; the history is untouched |
| App.AppState.Back | App.tsx:93 | back from history goes to the analysis iff there are results, else to the upload view |
| App.ContentAfterBatch | App.tsx:97-107 | after a failed batch the upload zone shows the error; after a parsed non-empty batch the results show; an empty batch leads back to the upload zone |

## Left out

- `downloadFile` (services/exportManager.ts:4-14) creates a Blob and clicks a link. `HandleExport` returns the `(content, fileName, mimeType)` triple it would hand over.
- The JSON export calls `JSON.stringify(result, null, 2)`, a library serialiser. It is the parameter `stringify`, and no JSON round trip is claimed.
- The formatting of doubles in detail text (`${videoDuration}` and `toFixed(2)`) is supplied as `NumberText`. Binary64 printing is not modelled.
- JsNumber.ParseFloat: values are exact reals. The rounding of binary64 and its overflow to infinity are not modelled.
- Types.Value: a number is carried by its canonical `Number::toString` text. Arithmetic is only done on durations, which are strings in the data.
- `new Date().toISOString()` (App.tsx:47, 49) is part of `ParsedFile`. `toLocaleString()` (services/exportManager.ts:73, components/HistoryPanel.tsx:58) is the parameter `localize`.
- The `Promise.all` fan-out (App.tsx:39-56) is asynchronous and interleaved. Its settled outcome is the `BatchOutcome` given to `HandleFiles`; which file's rejection wins is not modelled.
- The `useLocalStorage` hook is not part of this model. Its stored values are parameters of the constructor, and writing them back is not modelled.
- services/mediaParser.ts is a mock with a timer. Two of its fixtures appear, trimmed to the attributes the rules read; its size formatting and its copying are left out.
- The Gemini prompt text and the remote call of services/geminiService.ts are left out. The reply, or its absence when the call throws, is a parameter.
- JsText.ToLower: maps the ASCII letters only. This is enough for the `'audio'` test on the data seen, but it is weaker than `toLowerCase` on other scripts.
- JsText.ToUpper: maps the ASCII letters only. This is enough for the fixed section titles, but it is weaker than `toUpperCase` for other track titles.
- Characters are Unicode scalar values, while JavaScript strings are UTF-16 code units. Lengths and `trim` agree except on surrogate pairs, which are not modelled.
- JsValues.Property: a property read on a primitive or an array (`length`, string indices, `Array.prototype` members) yields undefined here. Only object properties are modelled.
- ComparisonView.CellValues: a cell reads only the track's own keys. A union key that names an inherited `Object.prototype` member (`constructor`, `toString`, `valueOf`), read on a track that lacks it, gives that function in JavaScript, and `String()` prints its source text; the model reads undefined and shows `N/A`. The same holds for `Types.Lookup` wherever it stands for `track[key]`.
- Types.Track: a track is a list of entries, and the model does not require its keys to be distinct, though no JavaScript object repeats a key. Every lemma holds for such lists too; counts such as `ExportManager.CsvRowCount` then count every entry.
- Object key order: an object lists its keys in insertion order. ECMAScript puts integer-like keys first; that reordering is not modelled.
- JsValues.JsValue has no booleans or functions, since none occur in the data. The XML builder's `typeof` branches for them are not modelled.
- The React markup, CSS classes other than the status and severity styles, `Header`'s `isAnalysisView` flag, the `useEffect` that sets the `dark` class, the collapsible sections, `TabView`, `UploadZone`, `AnalysisView`, `MetadataTable` and constants.ts are presentation only.
- Nothing is escaped in the XML, and CSV lines end in `\n` rather than CRLF. The model reproduces this; it does not claim well-formed XML (section 2.4 of XML 1.0) or strict section 2 rule 1 of RFC 4180 line endings.
