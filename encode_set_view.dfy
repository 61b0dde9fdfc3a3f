/**
 * The logic of components/EncodeSetView.tsx: the safe path lookup `get`
 * (a left fold over the dot-separated segments, where a segment containing
 * `name[digits]` indexes an array), the eleven fixed columns, the columns
 * shown for one or several results, the table rows and the N/A footnote.
 */
module EncodeSetView {
  import opened JsText
  import opened JsNumber
  import opened Types
  import opened JsValues

  // ---------------------------------------------------------------------------
  // The segment pattern /(\w+)\[(\d+)\]/
  // ---------------------------------------------------------------------------

  /** `\w`: an ASCII letter, a digit or an underscore. */
  predicate IsWordChar(c: char) {
    ('a' <= c <= 'z') || ('A' <= c <= 'Z') || IsDigit(c) || c == '_'
  }

  /** End of the longest run of word characters starting at `i`. */
  function WordRunEnd(s: string, i: nat): (j: nat)
    requires i <= |s|
    ensures i <= j <= |s|
    decreases |s| - i
  {
    if i < |s| && IsWordChar(s[i]) then WordRunEnd(s, i + 1) else i
  }

  /** The run found is made of word characters only, and is the longest. */
  lemma {:induction false} WordRunChars(s: string, i: nat)
    requires i <= |s|
    ensures forall k :: i <= k < WordRunEnd(s, i) ==> IsWordChar(s[k])
    ensures WordRunEnd(s, i) < |s| ==> !IsWordChar(s[WordRunEnd(s, i)])
    decreases |s| - i
  {
    if i < |s| && IsWordChar(s[i]) {
      WordRunChars(s, i + 1);
    }
  }

  /** The two captured groups of a match. */
  datatype IndexMatch = IndexMatch(arrayKey: string, digits: string)

  /**
   * The match of the pattern that starts at `i`, if any. Both `\w+` and `\d+`
   * are greedy, and backing off cannot help: a shorter word run is followed by
   * a word character, never `[`, and a shorter digit run by a digit, never `]`.
   */
  function MatchAt(s: string, i: nat): Option<IndexMatch>
    requires i <= |s|
  {
    var w := WordRunEnd(s, i);
    if w == i || w >= |s| || s[w] != '[' then None
    else
      var d := DigitRunEnd(s, w + 1);
      if d == w + 1 || d >= |s| || s[d] != ']' then None
      else Some(IndexMatch(s[i..w], s[w + 1..d]))
  }

  /** `part.match(...)`: the leftmost match; the pattern is not anchored. */
  function FindMatch(s: string, i: nat): Option<IndexMatch>
    requires i <= |s|
    decreases |s| - i
  {
    if i == |s| then None
    else if MatchAt(s, i).Some? then MatchAt(s, i)
    else FindMatch(s, i + 1)
  }

  /** A segment without `[` never matches. */
  lemma {:induction false} NoBracketNoMatch(s: string, i: nat)
    requires i <= |s| && '[' !in s
    ensures FindMatch(s, i) == None
    decreases |s| - i
  {
    if i < |s| {
      NoBracketNoMatch(s, i + 1);
    }
  }

  /** A match at `j` is a run of word characters, `[`, a run of digits and `]`, written there. */
  lemma MatchAtSpec(s: string, j: nat, m: IndexMatch)
    requires j <= |s| && MatchAt(s, j) == Some(m)
    ensures && m.arrayKey != [] && m.digits != []
      && (forall k :: 0 <= k < |m.arrayKey| ==> IsWordChar(m.arrayKey[k]))
      && (forall k :: 0 <= k < |m.digits| ==> IsDigit(m.digits[k]))
      && j + |m.arrayKey| + |m.digits| + 2 <= |s|
      && s[j..j + |m.arrayKey| + |m.digits| + 2] == m.arrayKey + "[" + m.digits + "]"
  {
    var w := WordRunEnd(s, j);
    WordRunChars(s, j);
    var d := DigitRunEnd(s, w + 1);
    DigitRunDigits(s, w + 1);
    assert forall k :: 0 <= k < |m.digits| ==> m.digits[k] == s[w + 1 + k];
    assert forall k :: 0 <= k < |m.arrayKey| ==> m.arrayKey[k] == s[j + k];
    assert s[j..d + 1] == s[j..w] + [s[w]] + s[w + 1..d] + [s[d]];
  }

  /** No match starts at any position in [i, j). */
  predicate NoMatchIn(s: string, i: nat, j: nat)
    requires i <= j <= |s|
  {
    forall j' :: i <= j' < j ==> MatchAt(s, j').None?
  }

  /** `match` finds the leftmost position where the pattern occurs, or none when it occurs nowhere. */
  lemma {:induction false} FindMatchLeftmost(s: string, i: nat)
    requires i <= |s|
    ensures FindMatch(s, i).Some? ==>
      exists j :: i <= j < |s| && MatchAt(s, j) == FindMatch(s, i) && NoMatchIn(s, i, j)
    ensures FindMatch(s, i).None? ==> NoMatchIn(s, i, |s|)
    decreases |s| - i
  {
    if i == |s| {
    } else if MatchAt(s, i).Some? {
      assert NoMatchIn(s, i, i);
    } else {
      FindMatchLeftmost(s, i + 1);
      var m := MatchAt(s, i);
      assert m.None?;
      assert FindMatch(s, i) == FindMatch(s, i + 1);
      if FindMatch(s, i + 1).Some? {
        var j :| i + 1 <= j < |s| && MatchAt(s, j) == FindMatch(s, i + 1) && NoMatchIn(s, i + 1, j);
        assert forall j' :: i <= j' < j ==> MatchAt(s, j').None? by {
          forall j' | i <= j' < j ensures MatchAt(s, j').None? {
            if j' == i { assert MatchAt(s, j') == m; }
          }
        }
        assert NoMatchIn(s, i, j);
      } else {
        assert forall j' :: i <= j' < |s| ==> MatchAt(s, j').None? by {
          forall j' | i <= j' < |s| ensures MatchAt(s, j').None? {
            if j' == i { assert MatchAt(s, j') == m; }
          }
        }
        assert NoMatchIn(s, i, |s|);
      }
    }
  }

  // ---------------------------------------------------------------------------
  // get(obj, path, defaultValue)
  // ---------------------------------------------------------------------------

  /** One step of the `reduce`. */
  function Step(acc: JsValue, part: string): JsValue {
    if IsNullish(acc) then JUndefined
    else
      match FindMatch(part, 0)
      case Some(m) =>
        var arr := Property(acc, m.arrayKey);
        var index := DecimalValue(m.digits);
        if arr.JArray? && index < |arr.items| then arr.items[index] else JUndefined
      case None => Property(acc, part)
  }

  /** `parts.reduce(step, obj)`, folding from the first segment. */
  function Walk(acc: JsValue, parts: seq<string>): JsValue
    decreases parts
  {
    if parts == [] then acc else Walk(Step(acc, parts[0]), parts[1..])
  }

  /** `get(obj, path, defaultValue)` */
  function Get(obj: JsValue, path: string, defaultValue: JsValue): JsValue {
    var value := Walk(obj, Split(path, '.'));
    if !IsNullish(value) then value else defaultValue
  }

  const NotAvailable := JStr("N/A")

  lemma {:induction false} WalkAppend(acc: JsValue, a: seq<string>, b: seq<string>)
    ensures Walk(acc, a + b) == Walk(Walk(acc, a), b)
    decreases a
  {
    if a != [] {
      assert (a + b)[1..] == a[1..] + b;
      WalkAppend(Step(acc, a[0]), a[1..], b);
    } else {
      assert a + b == b;
    }
  }

  /** Once a step yields null or undefined, the walk ends undefined (or where it was, if nothing is left). */
  lemma {:induction false} WalkFromNullish(acc: JsValue, parts: seq<string>)
    requires IsNullish(acc)
    ensures IsNullish(Walk(acc, parts))
    decreases parts
  {
    if parts != [] {
      WalkFromNullish(JUndefined, parts[1..]);
    }
  }

  /**
   * The lookup never yields null or undefined when the default is neither: it
   * yields the default exactly when some step along the path (or the final value)
   * is null or undefined, and otherwise the value found, even a falsy one.
   */
  lemma GetDefault(obj: JsValue, path: string, defaultValue: JsValue, i: nat)
    requires i <= |Split(path, '.')|
    requires IsNullish(Walk(obj, Split(path, '.')[..i]))
    ensures Get(obj, path, defaultValue) == defaultValue
  {
    var parts := Split(path, '.');
    assert parts == parts[..i] + parts[i..];
    WalkAppend(obj, parts[..i], parts[i..]);
    WalkFromNullish(Walk(obj, parts[..i]), parts[i..]);
  }

  lemma GetValue(obj: JsValue, path: string, defaultValue: JsValue)
    ensures !IsNullish(defaultValue) ==> !IsNullish(Get(obj, path, defaultValue))
    ensures !IsNullish(Walk(obj, Split(path, '.'))) ==> Get(obj, path, defaultValue) == Walk(obj, Split(path, '.'))
    ensures Get(JObject([("n", JNum("0"))]), "n", NotAvailable) == JNum("0")
    ensures Get(JObject([("s", JStr(""))]), "s", NotAvailable) == JStr("")
  {
    NoBracketNoMatch("n", 0);
    NoBracketNoMatch("s", 0);
    SplitNoSeparator("n", '.');
    SplitNoSeparator("s", '.');
  }

  lemma SplitNoSeparator(s: string, sep: char)
    requires sep !in s
    ensures Split(s, sep) == [s]
  {
    JoinSplit(s, sep);
  }

  /** `name[i]` indexes only an array, and only within its length. */
  lemma IndexedStep(acc: JsValue, part: string, m: IndexMatch)
    requires !IsNullish(acc) && FindMatch(part, 0) == Some(m)
    ensures !Property(acc, m.arrayKey).JArray? ==> Step(acc, part) == JUndefined
    ensures Property(acc, m.arrayKey).JArray? && DecimalValue(m.digits) >= |Property(acc, m.arrayKey).items| ==>
      Step(acc, part) == JUndefined
    ensures Property(acc, m.arrayKey).JArray? && DecimalValue(m.digits) < |Property(acc, m.arrayKey).items| ==>
      Step(acc, part) == Property(acc, m.arrayKey).items[DecimalValue(m.digits)]
  {
  }

  // ---------------------------------------------------------------------------
  // Lookups into a MediaInfo object
  // ---------------------------------------------------------------------------

  /** A track attribute as `get` reports it: N/A when it is missing. */
  function AttributeOrNa(t: Track, key: string): JsValue {
    if Lookup(t, key) == Undefined then NotAvailable else OfValue(Lookup(t, key))
  }

  /** The properties of a MediaInfo object the columns read. */
  lemma MediaInfoProperties(info: MediaInfo)
    ensures Property(MediaInfoToJs(info), "video") == if info.video.Some? then TrackToJs(info.video.value) else JNull
    ensures Property(MediaInfoToJs(info), "audio") == TracksToJs(info.audio)
  {
    var fields := MediaInfoToJs(info).fields;
    assert Field(fields, "video") == Field(fields[1..], "video");
    assert Field(fields, "audio") == Field(fields[1..], "audio");
    assert Field(fields[1..], "audio") == Field(fields[1..][1..], "audio");
    assert fields[1..][1..][0].0 == "audio";
  }

  /** Walking two segments is two steps. */
  lemma WalkTwo(obj: JsValue, first: string, second: string)
    ensures Walk(obj, [first, second]) == Step(Step(obj, first), second)
  {
    var parts := [first, second];
    assert parts[1..] == [second];
    assert Walk(obj, parts) == Walk(Step(obj, first), [second]);
    assert [second][1..] == [];
    assert Walk(Step(obj, first), [second]) == Walk(Step(Step(obj, first), second), []);
  }

  /** `get(mediaInfo, 'video.<key>')`: N/A without a video track, else the attribute. */
  lemma VideoLookup(info: MediaInfo, key: string)
    requires '.' !in key && '[' !in key
    ensures Get(MediaInfoToJs(info), "video." + key, NotAvailable) ==
      if info.video.None? then NotAvailable else AttributeOrNa(info.video.value, key)
  {
    var obj := MediaInfoToJs(info);
    SplitAfter("video", key, '.');
    SplitNoSeparator(key, '.');
    assert "video." + key == "video" + ['.'] + key;
    assert Split("video." + key, '.') == ["video", key];
    NoBracketNoMatch("video", 0);
    NoBracketNoMatch(key, 0);
    MediaInfoProperties(info);
    WalkTwo(obj, "video", key);
    if info.video.Some? {
      TrackProperty(info.video.value, key);
      ToStringOfValue(Lookup(info.video.value, key));
    }
  }

  lemma AudioSegmentMatch()
    ensures FindMatch("audio[0]", 0) == Some(IndexMatch("audio", "0"))
    ensures DecimalValue("0") == 0
  {
    var s := "audio[0]";
    assert WordRunEnd(s, 0) == 5 by {
      assert WordRunEnd(s, 5) == 5;
    }
    assert DigitRunEnd(s, 6) == 7 by {
      assert DigitRunEnd(s, 7) == 7;
    }
    assert s[0..5] == "audio" && s[6..7] == "0";
  }

  /** `get(mediaInfo, 'audio[0].<key>')`: N/A without an audio track, else the first one's attribute. */
  lemma FirstAudioLookup(info: MediaInfo, key: string)
    requires '.' !in key && '[' !in key
    ensures Get(MediaInfoToJs(info), "audio[0]." + key, NotAvailable) ==
      if |info.audio| == 0 then NotAvailable else AttributeOrNa(info.audio[0], key)
  {
    var obj := MediaInfoToJs(info);
    SplitAfter("audio[0]", key, '.');
    SplitNoSeparator(key, '.');
    assert "audio[0]." + key == "audio[0]" + ['.'] + key;
    assert Split("audio[0]." + key, '.') == ["audio[0]", key];
    AudioSegmentMatch();
    NoBracketNoMatch(key, 0);
    MediaInfoProperties(info);
    WalkTwo(obj, "audio[0]", key);
    if |info.audio| > 0 {
      TrackProperty(info.audio[0], key);
      ToStringOfValue(Lookup(info.audio[0], key));
    }
  }

  // ---------------------------------------------------------------------------
  // The table
  // ---------------------------------------------------------------------------

  /** What a column reads from a result: its file name, or a path into its media info. */
  datatype Accessor = FileNameOf | MediaPath(path: string)

  datatype Column = Column(header: string, accessor: Accessor)

  /** The track keys the video columns read, in column order. */
  const VideoKeys: seq<string> := ["bit_rate", "resolution", "profile", "level", "preset", "frame_rate", "gop_size"]
  const VideoHeaders: seq<string> :=
    ["Video_Bitrate", "Video_Resolution", "Video_Profile", "Video_Level", "Video_Preset", "Video_Framerate", "Video_GOP"]

  /** The track keys the audio columns read, in column order. */
  const AudioKeys: seq<string> := ["sample_rate", "bit_rate", "profile"]
  const AudioHeaders: seq<string> := ["Audio_SampleRate", "Audio_Bitrate", "Audio_AacProfile"]

  /** The column list: the file name, seven video columns, three columns of the first audio track. */
  function Columns(): seq<Column> {
    [Column("File_Name", FileNameOf)]
    + seq(7, k requires 0 <= k < 7 => Column(VideoHeaders[k], MediaPath("video." + VideoKeys[k])))
    + seq(3, k requires 0 <= k < 3 => Column(AudioHeaders[k], MediaPath("audio[0]." + AudioKeys[k])))
  }

  /** `col.accessor(result)` */
  function Cell(col: Column, r: AnalysisResult): JsValue {
    match col.accessor
    case FileNameOf => JStr(r.fileName)
    case MediaPath(path) => Get(MediaInfoToJs(r.mediaInfo), path, NotAvailable)
  }

  /** Eleven columns, the file name first, then the seven video paths and the three paths into the first audio track. */
  lemma ColumnsLayout()
    ensures |Columns()| == 11 && Columns()[0] == Column("File_Name", FileNameOf)
    ensures forall k :: 0 <= k < |VideoKeys| ==> Columns()[1 + k].accessor == MediaPath("video." + VideoKeys[k])
    ensures forall k :: 0 <= k < |AudioKeys| ==> Columns()[8 + k].accessor == MediaPath("audio[0]." + AudioKeys[k])
  {
  }

  /** No key a column reads has a dot or a bracket, so each path has exactly two segments. */
  lemma KeysPlain()
    ensures forall k :: 0 <= k < |VideoKeys| ==> '.' !in VideoKeys[k] && '[' !in VideoKeys[k]
    ensures forall k :: 0 <= k < |AudioKeys| ==> '.' !in AudioKeys[k] && '[' !in AudioKeys[k]
  {
  }

  /** What each column shows for one result. */
  lemma CellMeaning(r: AnalysisResult, k: nat)
    requires 1 <= k < |Columns()|
    ensures k < 8 ==>
      Cell(Columns()[k], r) == (if r.mediaInfo.video.None? then NotAvailable else AttributeOrNa(r.mediaInfo.video.value, VideoKeys[k - 1]))
    ensures 8 <= k ==>
      Cell(Columns()[k], r) == (if |r.mediaInfo.audio| == 0 then NotAvailable else AttributeOrNa(r.mediaInfo.audio[0], AudioKeys[k - 8]))
  {
    ColumnsLayout();
    KeysPlain();
    if k < 8 {
      var key := VideoKeys[k - 1];
      VideoLookup(r.mediaInfo, key);
    } else {
      var key := AudioKeys[k - 8];
      FirstAudioLookup(r.mediaInfo, key);
    }
  }

  /** `results.length > 1 ? columns : columns.slice(1)` */
  function VisibleColumns(resultCount: nat): seq<Column> {
    if resultCount > 1 then Columns() else Columns()[1..]
  }

  /** With one result or none, exactly the file-name column is dropped; otherwise all eleven show. */
  lemma VisibleColumnsIff(resultCount: nat)
    ensures resultCount > 1 ==> VisibleColumns(resultCount) == Columns()
    ensures resultCount <= 1 ==> |VisibleColumns(resultCount)| == 10 && Columns() == [Columns()[0]] + VisibleColumns(resultCount)
    ensures (exists k :: 0 <= k < |VisibleColumns(resultCount)| && VisibleColumns(resultCount)[k].header == "File_Name")
      <==> resultCount > 1
  {
    if resultCount > 1 {
      assert VisibleColumns(resultCount)[0].header == "File_Name";
    } else {
      forall k | 0 <= k < |VisibleColumns(resultCount)|
        ensures VisibleColumns(resultCount)[k].header != "File_Name"
      {
        assert VisibleColumns(resultCount)[k] == Columns()[k + 1];
        assert Columns()[k + 1].header[0] != 'F';
      }
    }
  }

  /** `col.header.replace(/_/g, ' ')` for each visible column. */
  function HeaderRow(resultCount: nat): seq<string> {
    seq(|VisibleColumns(resultCount)|, k requires 0 <= k < |VisibleColumns(resultCount)| =>
      ReplaceAll(VisibleColumns(resultCount)[k].header, '_', ' '))
  }

  /** One row per result, one `String(...)` cell per visible column. */
  function TableRows(results: seq<AnalysisResult>): seq<seq<string>> {
    seq(|results|, i requires 0 <= i < |results| => RowCells(VisibleColumns(|results|), results[i]))
  }

  function RowCells(cols: seq<Column>, r: AnalysisResult): seq<string> {
    seq(|cols|, k requires 0 <= k < |cols| => ToString(Cell(cols[k], r)))
  }

  /** Some result lacks a video track or has no audio track. */
  function NoteShown(results: seq<AnalysisResult>): bool {
    results != [] && (results[0].mediaInfo.video.None? || |results[0].mediaInfo.audio| == 0 || NoteShown(results[1..]))
  }

  predicate MissingStream(r: AnalysisResult) {
    r.mediaInfo.video.None? || |r.mediaInfo.audio| == 0
  }

  lemma {:induction false} NoteShownIff(results: seq<AnalysisResult>)
    ensures NoteShown(results) <==> exists i :: 0 <= i < |results| && MissingStream(results[i])
  {
    if results != [] {
      NoteShownIff(results[1..]);
      if exists i :: 0 <= i < |results| && MissingStream(results[i]) {
        var i :| 0 <= i < |results| && MissingStream(results[i]);
        if i > 0 { assert results[1..][i - 1] == results[i]; }
      }
      if exists i :: 0 <= i < |results[1..]| && MissingStream(results[1..][i]) {
        var i :| 0 <= i < |results[1..]| && MissingStream(results[1..][i]);
        assert results[i + 1] == results[1..][i];
      }
    }
  }

  /**
   * Why the footnote is there: a result without video shows N/A in every video
   * column of its row, and one without audio in every audio column.
   */
  lemma MissingStreamCells(results: seq<AnalysisResult>, i: nat, k: nat)
    requires i < |results| && 1 <= k < |Columns()|
    ensures k < 8 && results[i].mediaInfo.video.None? ==> Cell(Columns()[k], results[i]) == NotAvailable
    ensures 8 <= k && |results[i].mediaInfo.audio| == 0 ==> Cell(Columns()[k], results[i]) == NotAvailable
  {
    CellMeaning(results[i], k);
  }

  /** The table has one row per result, in order, each with one cell per visible column. */
  lemma TableRowsShape(results: seq<AnalysisResult>, i: nat)
    requires i < |results|
    ensures |TableRows(results)| == |results|
    ensures |TableRows(results)[i]| == |HeaderRow(|results|)| == |VisibleColumns(|results|)|
    ensures |results| > 1 ==> TableRows(results)[i][0] == results[i].fileName
  {
  }
}
