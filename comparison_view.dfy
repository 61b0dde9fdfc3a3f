/**
 * The logic of components/ComparisonView.tsx: the union of the keys of one
 * track kind over all compared results (a `Set` filled by nested loops, so
 * each key once, in first-seen order), one row per key with one cell per
 * result, the strict-equality divergence flag of a row, the cell text, and the
 * status dot of each result.
 */
module ComparisonView {
  import opened JsText
  import opened Types
  import opened QcSummaryPanel

  /** The track kinds the view compares. */
  datatype TrackName = General | Video

  /** `r.mediaInfo[trackName]`: the general track is always there, the video track may be null. */
  function TrackOf(r: AnalysisResult, name: TrackName): Option<Track> {
    match name
    case General => Some(r.mediaInfo.general)
    case Video => r.mediaInfo.video
  }

  /** The keys one result contributes: none when its track is null. */
  function KeysOf(r: AnalysisResult, name: TrackName): seq<string> {
    match TrackOf(r, name)
    case None => []
    case Some(t) => Keys(t)
  }

  /** `keySet.add(k)` for each k in turn: keys already present keep their place. */
  function AddKeys(known: seq<string>, ks: seq<string>): seq<string> {
    if ks == [] then known
    else
      var before := AddKeys(known, ks[..|ks| - 1]);
      var k := ks[|ks| - 1];
      if k in before then before else before + [k]
  }

  /** `Array.from(keySet)` after visiting the results in order. */
  function FirstSeenKeys(results: seq<AnalysisResult>, name: TrackName): seq<string> {
    if results == [] then []
    else AddKeys(FirstSeenKeys(results[..|results| - 1], name), KeysOf(results[|results| - 1], name))
  }

  /** `allKeys(trackName)` */
  method AllKeys(results: seq<AnalysisResult>, name: TrackName) returns (keys: seq<string>)
    ensures keys == FirstSeenKeys(results, name)
  {
    keys := [];
    for i := 0 to |results|
      invariant keys == FirstSeenKeys(results[..i], name)
    {
      assert results[..i + 1][..i] == results[..i];
      var track := TrackOf(results[i], name);
      if track.Some? {
        var ks := Keys(track.value);
        ghost var known := keys;
        for j := 0 to |ks|
          invariant keys == AddKeys(known, ks[..j])
        {
          assert ks[..j + 1][..j] == ks[..j];
          if ks[j] !in keys {
            keys := keys + [ks[j]];
          }
        }
        assert ks[..|ks|] == ks;
      }
    }
    assert results[..|results|] == results;
  }

  predicate Distinct(ks: seq<string>) {
    forall i, j :: 0 <= i < j < |ks| ==> ks[i] != ks[j]
  }

  /** Adding keys keeps the known ones in front, adds exactly the new ones, and never repeats one. */
  lemma {:induction false} AddKeysSpec(known: seq<string>, ks: seq<string>)
    requires Distinct(known)
    ensures Distinct(AddKeys(known, ks))
    ensures |known| <= |AddKeys(known, ks)| && AddKeys(known, ks)[..|known|] == known
    ensures forall k :: k in AddKeys(known, ks) <==> k in known || k in ks
  {
    if ks != [] {
      var init := ks[..|ks| - 1];
      AddKeysSpec(known, init);
      var before := AddKeys(known, init);
      assert ks == init + [ks[|ks| - 1]];
      if ks[|ks| - 1] !in before {
        assert (before + [ks[|ks| - 1]])[..|known|] == before[..|known|];
      }
    }
  }

  /** Some result's track of this kind has the key. */
  predicate SomeResultHas(results: seq<AnalysisResult>, name: TrackName, k: string) {
    exists i :: 0 <= i < |results| && k in KeysOf(results[i], name)
  }

  /**
   * The key union: a key is listed iff some result's track has it, and no key
   * is listed twice.
   */
  lemma {:induction false} FirstSeenKeysSpec(results: seq<AnalysisResult>, name: TrackName)
    ensures Distinct(FirstSeenKeys(results, name))
    ensures forall k :: k in FirstSeenKeys(results, name) <==> SomeResultHas(results, name, k)
  {
    if results != [] {
      var init := results[..|results| - 1];
      var last := results[|results| - 1];
      FirstSeenKeysSpec(init, name);
      var before := FirstSeenKeys(init, name);
      AddKeysSpec(before, KeysOf(last, name));
      forall k
        ensures k in FirstSeenKeys(results, name) <==> SomeResultHas(results, name, k)
      {
        if SomeResultHas(results, name, k) {
          var i :| 0 <= i < |results| && k in KeysOf(results[i], name);
          if i < |init| {
            assert init[i] == results[i];
          }
        }
        if SomeResultHas(init, name, k) {
          var i :| 0 <= i < |init| && k in KeysOf(init[i], name);
          assert results[i] == init[i];
        }
      }
    }
  }

  /** The keys of the first i results come first, in the same order (first-seen order). */
  lemma {:induction false} FirstSeenKeysPrefix(results: seq<AnalysisResult>, name: TrackName, i: nat)
    requires i <= |results|
    ensures |FirstSeenKeys(results[..i], name)| <= |FirstSeenKeys(results, name)|
    ensures FirstSeenKeys(results, name)[..|FirstSeenKeys(results[..i], name)|] == FirstSeenKeys(results[..i], name)
  {
    if i == |results| {
      assert results[..i] == results;
    } else {
      var init := results[..|results| - 1];
      FirstSeenKeysPrefix(init, name, i);
      assert init[..i] == results[..i];
      FirstSeenKeysSpec(init, name);
      AddKeysSpec(FirstSeenKeys(init, name), KeysOf(results[|results| - 1], name));
    }
  }

  /** A result whose track is null adds no key. */
  lemma NullTrackAddsNoKeys(results: seq<AnalysisResult>, r: AnalysisResult, name: TrackName)
    requires TrackOf(r, name).None?
    ensures FirstSeenKeys(results + [r], name) == FirstSeenKeys(results, name)
  {
    assert (results + [r])[..|results|] == results;
  }

  /** One cell per result, in result order: the track's value, undefined for a null track. */
  function CellValues(results: seq<AnalysisResult>, name: TrackName, key: string): (values: seq<Value>)
    ensures |values| == |results|
  {
    seq(|results|, i requires 0 <= i < |results| =>
      match TrackOf(results[i], name)
      case None => Undefined
      case Some(t) => Lookup(t, key))
  }

  /** The value a result's cell shows: its track's attribute, undefined when the track is null or lacks the key. */
  lemma CellValue(results: seq<AnalysisResult>, name: TrackName, key: string, i: nat)
    requires i < |results|
    ensures TrackOf(results[i], name).None? ==> CellValues(results, name, key)[i] == Undefined
    ensures TrackOf(results[i], name).Some? && key !in Keys(TrackOf(results[i], name).value) ==>
      CellValues(results, name, key)[i] == Undefined
    ensures CellValues(results, name, key)[i] != Undefined ==>
      exists j :: 0 <= j < |TrackOf(results[i], name).value| && TrackOf(results[i], name).value[j] == (key, CellValues(results, name, key)[i])
  {
    if TrackOf(results[i], name).Some? {
      LookupFound(TrackOf(results[i], name).value, key);
    }
  }

  /** `values.every(v => v === values[0])`, scanning from the front. */
  function Every(values: seq<Value>, first: Value): bool {
    values == [] || (StrictEquals(values[0], first) && Every(values[1..], first))
  }

  function AllSame(values: seq<Value>): bool {
    values == [] || Every(values, values[0])
  }

  lemma {:induction false} EveryIff(values: seq<Value>, first: Value)
    ensures Every(values, first) <==> forall i :: 0 <= i < |values| ==> StrictEquals(values[i], first)
  {
    if values != [] {
      EveryIff(values[1..], first);
      assert forall i :: 1 <= i < |values| ==> values[i] == values[1..][i - 1];
    }
  }

  /**
   * A row is uniform iff every value is strictly equal to the first; in
   * particular every value, the first included, must not be NaN.
   */
  lemma AllSameIff(values: seq<Value>)
    ensures AllSame(values) <==> forall i :: 0 <= i < |values| ==> StrictEquals(values[i], values[0])
    ensures AllSame(values) && values != [] ==> values[0] != Num("NaN")
  {
    if values != [] {
      EveryIff(values, values[0]);
    }
  }

  /** A single value is uniform unless it is NaN, which is unequal to itself. */
  lemma AllSameSingle(v: Value)
    ensures AllSame([v]) <==> v != Num("NaN")
  {
    AllSameIff([v]);
  }

  /** Strictness: a number and a string with the same text differ; two undefined cells agree. */
  lemma AllSameStrict(text: string)
    ensures !AllSame([Num(text), Str(text)])
    ensures AllSame([Undefined, Undefined])
  {
    AllSameIff([Num(text), Str(text)]);
    assert !StrictEquals([Num(text), Str(text)][1], [Num(text), Str(text)][0]);
    AllSameIff([Undefined, Undefined]);
  }

  /** `String(value ?? 'N/A')` */
  function CellText(v: Value): string {
    if v == Undefined then "N/A" else ToJsString(v)
  }

  /** Only a missing value shows N/A; zero and the empty string show as themselves. */
  lemma CellTextDefined(v: Value)
    ensures v != Undefined ==> CellText(v) == ToJsString(v)
    ensures CellText(Num("0")) == "0" && CellText(Str("")) == ""
    ensures v == Undefined ==> CellText(v) == "N/A"
  {
  }

  /** A rendered row: its label, its cell texts, and whether the cells are highlighted as differing. */
  datatype Row = Row(caption: string, cells: seq<string>, highlighted: bool)

  function ComparisonRow(key: string, values: seq<Value>): Row {
    Row(ReplaceAll(key, '_', ' '), seq(|values|, i requires 0 <= i < |values| => CellText(values[i])), !AllSame(values))
  }

  /** The rows of one section: one per key of the union, in its order. */
  function SectionRows(results: seq<AnalysisResult>, name: TrackName): seq<Row> {
    var keys := FirstSeenKeys(results, name);
    seq(|keys|, k requires 0 <= k < |keys| => ComparisonRow(keys[k], CellValues(results, name, keys[k])))
  }

  /**
   * Each row has one cell per result, its label is the key with underscores
   * turned into spaces, and it is highlighted iff some value is not strictly
   * equal to the first.
   */
  lemma SectionRowsShape(results: seq<AnalysisResult>, name: TrackName, k: nat)
    requires k < |FirstSeenKeys(results, name)|
    ensures |SectionRows(results, name)| == |FirstSeenKeys(results, name)|
    ensures |SectionRows(results, name)[k].cells| == |results|
    ensures '_' !in SectionRows(results, name)[k].caption
    ensures SectionRows(results, name)[k].highlighted <==>
      exists i :: 0 <= i < |results| &&
        !StrictEquals(CellValues(results, name, FirstSeenKeys(results, name)[k])[i],
                      CellValues(results, name, FirstSeenKeys(results, name)[k])[0])
  {
    AllSameIff(CellValues(results, name, FirstSeenKeys(results, name)[k]));
  }

  /** `getStatusColor`: red on any Error, else amber on any Warning, else green. */
  function StatusColor(result: AnalysisResult): string {
    if AnySeverity(result.qcIssues, Error) then "bg-danger"
    else if AnySeverity(result.qcIssues, Warning) then "bg-warning"
    else "bg-success"
  }

  /** The dot's colour follows the overall status. */
  lemma StatusColorIff(result: AnalysisResult)
    ensures StatusColor(result) == "bg-danger" <==> OverallStatus(result.qcIssues) == Error
    ensures StatusColor(result) == "bg-warning" <==> OverallStatus(result.qcIssues) == Warning
    ensures StatusColor(result) == "bg-success" <==> OverallStatus(result.qcIssues) == Pass
  {
  }
}
