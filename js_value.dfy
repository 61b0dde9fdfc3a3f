/**
 * The JavaScript values the exporters and the encode-set lookup walk over:
 * the records of the data model seen as plain objects, arrays and primitives,
 * with ECMAScript's ToString and property access on them.
 */
module JsValues {
  import opened JsText
  import opened Types

  /**
   * An object lists its own enumerable properties in insertion order, which is
   * the order `for...in` and `Object.entries` visit them in.
   */
  datatype JsValue =
    | JStr(s: string)
    | JNum(repr: string)
    | JUndefined
    | JNull
    | JArray(items: seq<JsValue>)
    | JObject(fields: seq<(string, JsValue)>)

  /** `v === undefined || v === null` */
  predicate IsNullish(v: JsValue) {
    v.JUndefined? || v.JNull?
  }

  function OfValue(v: Value): JsValue {
    match v
    case Str(s) => JStr(s)
    case Num(r) => JNum(r)
    case Undefined => JUndefined
  }

  /** A track as the plain object the parser produces. */
  function TrackToJs(t: Track): JsValue {
    JObject(seq(|t|, k requires 0 <= k < |t| => (t[k].0, OfValue(t[k].1))))
  }

  function TracksToJs(ts: seq<Track>): JsValue {
    JArray(seq(|ts|, i requires 0 <= i < |ts| => TrackToJs(ts[i])))
  }

  /** A MediaInfo object; an absent video track is `null`. */
  function MediaInfoToJs(info: MediaInfo): JsValue {
    JObject([
      ("general", TrackToJs(info.general)),
      ("video", if info.video.Some? then TrackToJs(info.video.value) else JNull),
      ("audio", TracksToJs(info.audio)),
      ("subtitles", TracksToJs(info.subtitles))])
  }

  function IssueToJs(i: QCIssue): JsValue {
    JObject([
      ("id", JStr(i.id)),
      ("description", JStr(i.description)),
      ("details", JStr(i.details)),
      ("severity", JStr(SeverityText(i.severity)))])
  }

  function IssuesToJs(issues: seq<QCIssue>): JsValue {
    JArray(seq(|issues|, k requires 0 <= k < |issues| => IssueToJs(issues[k])))
  }

  /** An AnalysisResult object, with its properties in the order App.tsx writes them. */
  function ResultToJs(r: AnalysisResult): JsValue {
    JObject([
      ("id", JStr(r.id)),
      ("fileName", JStr(r.fileName)),
      ("timestamp", JStr(r.timestamp)),
      ("mediaInfo", MediaInfoToJs(r.mediaInfo)),
      ("qcIssues", IssuesToJs(r.qcIssues)),
      ("qcSummary", JStr(r.qcSummary))])
  }

  /** ToString(v): what `String(v)`, `${v}` and `+` with a string produce. */
  function ToString(v: JsValue): string
    decreases v
  {
    match v
    case JStr(s) => s
    case JNum(r) => r
    case JUndefined => "undefined"
    case JNull => "null"
    case JArray(items) => JoinItems(items)
    case JObject(_) => "[object Object]"
  }

  /** `items.join(',')`, where null and undefined elements print as nothing. */
  function JoinItems(items: seq<JsValue>): string
    decreases items
  {
    if items == [] then ""
    else
      var first := if IsNullish(items[0]) then "" else ToString(items[0]);
      if |items| == 1 then first else first + "," + JoinItems(items[1..])
  }

  /** `v.toString()`: a TypeError on null and undefined, ToString otherwise. */
  function CallToString(v: JsValue): Option<string> {
    if IsNullish(v) then None else Some(ToString(v))
  }

  /** `obj[key]` on an object's own properties; undefined when there is none. */
  function Field(fields: seq<(string, JsValue)>, key: string): JsValue {
    if fields == [] then JUndefined
    else if fields[0].0 == key then fields[0].1
    else Field(fields[1..], key)
  }

  /**
   * `v[key]`. Only objects carry the properties the core reads: primitives and
   * arrays yield undefined here (their built-in properties such as `length`
   * are not modelled).
   */
  function Property(v: JsValue, key: string): JsValue {
    if v.JObject? then Field(v.fields, key) else JUndefined
  }

  /** A value prints as the text `String(value)` gives the model's Value. */
  lemma ToStringOfValue(v: Value)
    ensures ToString(OfValue(v)) == ToJsString(v)
    ensures IsNullish(OfValue(v)) <==> v == Undefined
  {
  }

  /** Reading a key of a track object gives the track's attribute, undefined when absent. */
  lemma {:induction false} TrackProperty(t: Track, key: string)
    ensures Property(TrackToJs(t), key) == OfValue(Lookup(t, key))
  {
    if t != [] && t[0].0 != key {
      TrackProperty(t[1..], key);
      assert TrackToJs(t).fields[1..] == TrackToJs(t[1..]).fields;
    }
  }
}
