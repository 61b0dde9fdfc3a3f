/**
 * The normalised media-metadata model and the records built from it
 * (types.ts): tracks, media info, QC issues with their severity, analysis
 * results and the export formats.
 */
module Types {
  import opened JsText

  datatype Option<+T> = None | Some(value: T)

  /**
   * A flat track attribute: a string, a number or `undefined`; never a nested
   * structure. A number is carried by its canonical text, the text
   * `Number::toString` gives it ("29.97", "8666688", "0" for both zeros, "NaN"):
   * that text is all the core ever prints of a number, and it identifies the
   * number up to the sign of zero, which strict equality ignores too.
   */
  datatype Value = Str(text: string) | Num(repr: string) | Undefined

  /** A track: its attributes in the order `Object.entries` lists them. */
  type Track = seq<(string, Value)>

  /** `general` is always there, `video` is absent when there is no video stream. */
  datatype MediaInfo = MediaInfo(general: Track, video: Option<Track>, audio: seq<Track>, subtitles: seq<Track>)

  /** QCSeverity: exactly three values. */
  datatype Severity = Pass | Warning | Error

  datatype QCIssue = QCIssue(id: string, description: string, details: string, severity: Severity)

  datatype AnalysisResult = AnalysisResult(
    id: string,
    fileName: string,
    timestamp: string,
    mediaInfo: MediaInfo,
    qcIssues: seq<QCIssue>,
    qcSummary: string)

  datatype ExportFormat = Json | Xml | Csv | Txt

  datatype Theme = Light | Dark

  /** The string value of each QCSeverity member, which reports print verbatim. */
  function SeverityText(s: Severity): string {
    match s
    case Pass => "Pass"
    case Warning => "Warning"
    case Error => "Error"
  }

  /** The string value of each ExportFormat member, used as the file extension. */
  function FormatText(f: ExportFormat): string {
    match f
    case Json => "json"
    case Xml => "xml"
    case Csv => "csv"
    case Txt => "txt"
  }

  /** Distinct severities print differently, and so do distinct formats. */
  lemma EnumTextsDistinct(s1: Severity, s2: Severity, f1: ExportFormat, f2: ExportFormat)
    ensures SeverityText(s1) == SeverityText(s2) ==> s1 == s2
    ensures FormatText(f1) == FormatText(f2) ==> f1 == f2
  {
  }

  /** `Object.keys(track)`. */
  function Keys(t: Track): seq<string> {
    seq(|t|, i requires 0 <= i < |t| => t[i].0)
  }

  /** `track[key]`: the attribute's value, `undefined` when the key is missing. */
  function Lookup(t: Track, key: string): Value {
    if t == [] then Undefined
    else if t[0].0 == key then t[0].1
    else Lookup(t[1..], key)
  }

  /** A defined attribute value is the value of an entry with that key. */
  lemma {:induction false} LookupFound(t: Track, key: string)
    ensures Lookup(t, key) != Undefined ==> exists i :: 0 <= i < |t| && t[i] == (key, Lookup(t, key))
    ensures key !in Keys(t) ==> Lookup(t, key) == Undefined
  {
    if t != [] {
      assert Keys(t)[0] == t[0].0;
    }
    if t != [] && t[0].0 != key {
      LookupFound(t[1..], key);
      if Lookup(t, key) != Undefined {
        var i :| 0 <= i < |t[1..]| && t[1..][i] == (key, Lookup(t, key));
        assert t[i + 1] == (key, Lookup(t, key));
      }
      if key !in Keys(t) {
        assert forall i :: 0 <= i < |t| - 1 ==> Keys(t[1..])[i] == Keys(t)[i + 1];
      }
    }
  }

  /**
   * `Object.keys` lists one key per entry, a key is listed iff some entry has
   * it, and every key that reads as a defined value is listed.
   */
  lemma KeysIff(t: Track, key: string)
    ensures |Keys(t)| == |t|
    ensures key in Keys(t) <==> exists i :: 0 <= i < |t| && t[i].0 == key
    ensures Lookup(t, key) != Undefined ==> key in Keys(t)
  {
    LookupFound(t, key);
    if key in Keys(t) {
      var i :| 0 <= i < |Keys(t)| && Keys(t)[i] == key;
      assert t[i].0 == key;
    }
    if exists i :: 0 <= i < |t| && t[i].0 == key {
      var i :| 0 <= i < |t| && t[i].0 == key;
      assert Keys(t)[i] == key;
    }
  }

  /** `String(v)`, which is also what a template literal `${v}` prints. */
  function ToJsString(v: Value): string {
    match v
    case Str(s) => s
    case Num(r) => r
    case Undefined => "undefined"
  }

  /** `!v`: undefined, the empty string, zero and NaN are falsy. */
  predicate IsFalsy(v: Value) {
    match v
    case Str(s) => s == ""
    case Num(r) => r == "0" || r == "NaN"
    case Undefined => true
  }

  /** `a === b`: same type and same value; NaN is unequal to everything, itself included. */
  predicate StrictEquals(a: Value, b: Value) {
    match (a, b)
    case (Str(x), Str(y)) => x == y
    case (Num(x), Num(y)) => x == y && x != "NaN"
    case (Undefined, Undefined) => true
    case _ => false
  }

  /** `issues.some(i => i.severity === s)`, scanning from the front. */
  function AnySeverity(issues: seq<QCIssue>, s: Severity): bool {
    issues != [] && (issues[0].severity == s || AnySeverity(issues[1..], s))
  }

  lemma {:induction false} AnySeverityIff(issues: seq<QCIssue>, s: Severity)
    ensures AnySeverity(issues, s) <==> exists k :: 0 <= k < |issues| && issues[k].severity == s
  {
    if issues != [] {
      AnySeverityIff(issues[1..], s);
      if exists k :: 0 <= k < |issues| && issues[k].severity == s {
        var k :| 0 <= k < |issues| && issues[k].severity == s;
        if k > 0 { assert issues[1..][k - 1].severity == s; }
      }
    }
  }
}
