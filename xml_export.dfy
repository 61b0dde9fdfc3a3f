/**
 * `toXML` / `toXmlRecursive` of services/exportManager.ts: a recursive walk
 * that renders any JavaScript value as XML text. Arrays become repeated
 * siblings, `@` keys attributes, `#text` and `#cdata` raw and wrapped text,
 * and every other key a child element. Nothing is escaped, and a `null` or
 * `undefined` reached where `toString()` is called raises a TypeError, which
 * the model carries as `None`.
 */
module XmlExport {
  import opened JsText
  import opened Types
  import opened JsValues

  const XmlDeclaration := "<?xml version=\"1.0\" encoding=\"UTF-8\" ?>\n"

  /** `m.charAt(0) === '@'` (the empty key has no '@' at position 0). */
  predicate IsAttributeKey(m: string) {
    |m| > 0 && m[0] == '@'
  }

  /** A key rendered as a child element of its own. */
  predicate IsElementKey(m: string) {
    !IsAttributeKey(m) && m != "#text" && m != "#cdata"
  }

  /** The `hasChild` flag after scanning `fields`: some key is not an attribute. */
  predicate HasChild(fields: seq<(string, JsValue)>) {
    fields != [] && (HasChild(fields[..|fields| - 1]) || !IsAttributeKey(fields[|fields| - 1].0))
  }

  /** `toXmlRecursive(v, name, ind)`; None when it throws. */
  function Xml(v: JsValue, name: string, ind: string): Option<string>
    decreases v, 1
  {
    match v
    case JArray(items) => ItemsXml(items, name, ind)
    case JObject(fields) =>
      (match AttributesXml(fields)
       case None => None
       case Some(attributes) =>
         var open := ind + "<" + name + attributes;
         if !HasChild(fields) then Some(open + "/>")
         else
           match ChildrenXml(fields, ind)
           case None => None
           case Some(children) =>
             var body := open + ">" + children;
             Some(body + (if body[|body| - 1] == '\n' then ind else "") + "</" + name + ">"))
    case _ =>
      match CallToString(v)
      case None => None
      case Some(s) => Some(ind + "<" + name + ">" + s + "</" + name + ">")
  }

  /** The array branch: one line per item, the item rendered one tab deeper. */
  function ItemsXml(items: seq<JsValue>, name: string, ind: string): Option<string>
    decreases items
  {
    if items == [] then Some("")
    else
      match ItemsXml(items[..|items| - 1], name, ind)
      case None => None
      case Some(before) =>
        match Xml(items[|items| - 1], name, ind + "\t")
        case None => None
        case Some(item) => Some(before + ind + item + "\n")
  }

  /** The attribute loop: ` key="value"` for every `@` key, with the `@` dropped. */
  function AttributesXml(fields: seq<(string, JsValue)>): Option<string>
    decreases fields
  {
    if fields == [] then Some("")
    else
      match AttributesXml(fields[..|fields| - 1])
      case None => None
      case Some(before) =>
        var (key, value) := fields[|fields| - 1];
        if !IsAttributeKey(key) then Some(before)
        else
          match CallToString(value)
          case None => None
          case Some(s) => Some(before + " " + key[1..] + "=\"" + s + "\"")
  }

  /** The child loop: raw `#text`, wrapped `#cdata`, and child elements one tab deeper. */
  function ChildrenXml(fields: seq<(string, JsValue)>, ind: string): Option<string>
    decreases fields
  {
    if fields == [] then Some("")
    else
      match ChildrenXml(fields[..|fields| - 1], ind)
      case None => None
      case Some(before) =>
        var last := fields[|fields| - 1];
        if last.0 == "#text" then Some(before + ToString(last.1))
        else if last.0 == "#cdata" then Some(before + "<![CDATA[" + ToString(last.1) + "]]>")
        else if IsAttributeKey(last.0) then Some(before)
        else
          assert last.1 < last;
          match Xml(last.1, last.0, ind + "\t")
          case None => None
          case Some(child) => Some(before + child)
  }

  /** `toXML(obj, rootName)`. */
  function ToXml(obj: JsValue, rootName: string): Option<string> {
    match Xml(obj, rootName, "")
    case None => None
    case Some(body) => Some(XmlDeclaration + body)
  }

  lemma ItemsXmlFailed(items: seq<JsValue>, name: string, ind: string, i: nat)
    requires i <= |items| && ItemsXml(items[..i], name, ind).None?
    ensures ItemsXml(items, name, ind).None?
    decreases |items|
  {
    if i == |items| {
      assert items[..i] == items;
    } else {
      assert items[..|items| - 1][..i] == items[..i];
      ItemsXmlFailed(items[..|items| - 1], name, ind, i);
    }
  }

  lemma AttributesXmlFailed(fields: seq<(string, JsValue)>, i: nat)
    requires i <= |fields| && AttributesXml(fields[..i]).None?
    ensures AttributesXml(fields).None?
    decreases |fields|
  {
    if i == |fields| {
      assert fields[..i] == fields;
    } else {
      assert fields[..|fields| - 1][..i] == fields[..i];
      AttributesXmlFailed(fields[..|fields| - 1], i);
    }
  }

  lemma ChildrenXmlFailed(fields: seq<(string, JsValue)>, ind: string, i: nat)
    requires i <= |fields| && ChildrenXml(fields[..i], ind).None?
    ensures ChildrenXml(fields, ind).None?
    decreases |fields|
  {
    if i == |fields| {
      assert fields[..i] == fields;
    } else {
      assert fields[..|fields| - 1][..i] == fields[..i];
      ChildrenXmlFailed(fields[..|fields| - 1], ind, i);
    }
  }

  /** `toXmlRecursive` as written: string building with `+=` in loops, and recursion. */
  method XmlRecursive(v: JsValue, name: string, ind: string) returns (r: Option<string>)
    ensures r == Xml(v, name, ind)
    decreases v, 1
  {
    match v {
      case JArray(items) =>
        r := ArrayToXml(items, name, ind);
      case JObject(fields) =>
        r := ObjectToXml(fields, name, ind);
      case _ =>
        if IsNullish(v) {
          return None;
        }
        r := Some(ind + "<" + name + ">" + ToString(v) + "</" + name + ">");
    }
  }

  method ArrayToXml(items: seq<JsValue>, name: string, ind: string) returns (r: Option<string>)
    ensures r == ItemsXml(items, name, ind)
    decreases items, 0
  {
    var xml := "";
    for i := 0 to |items|
      invariant ItemsXml(items[..i], name, ind) == Some(xml)
    {
      assert items[..i + 1][..i] == items[..i];
      var item := XmlRecursive(items[i], name, ind + "\t");
      if item.None? {
        ItemsXmlFailed(items, name, ind, i + 1);
        return None;
      }
      xml := xml + ind + item.value + "\n";
    }
    assert items[..|items|] == items;
    return Some(xml);
  }

  /** The object branch of `toXmlRecursive`: attribute loop, then child loop and closing tag. */
  method ObjectToXml(fields: seq<(string, JsValue)>, name: string, ind: string) returns (r: Option<string>)
    ensures r == Xml(JObject(fields), name, ind)
    decreases fields, 1
  {
    var attributes, hasChild := AttributesToXml(fields);
    if attributes.None? {
      return None;
    }
    var xml := ind + "<" + name + attributes.value;
    if !hasChild {
      return Some(xml + "/>");
    }
    var children := ChildrenToXml(fields, ind);
    if children.None? {
      return None;
    }
    xml := xml + ">" + children.value;
    xml := xml + (if xml[|xml| - 1] == '\n' then ind else "") + "</" + name + ">";
    return Some(xml);
  }

  /** The first `for...in` loop: attributes, and whether any key is not one. */
  method AttributesToXml(fields: seq<(string, JsValue)>) returns (r: Option<string>, hasChild: bool)
    ensures r == AttributesXml(fields)
    ensures hasChild == HasChild(fields)
  {
    var xml := "";
    hasChild := false;
    for k := 0 to |fields|
      invariant AttributesXml(fields[..k]) == Some(xml)
      invariant hasChild == HasChild(fields[..k])
    {
      assert fields[..k + 1][..k] == fields[..k];
      var (key, value) := fields[k];
      if IsAttributeKey(key) {
        if IsNullish(value) {
          AttributesXmlFailed(fields, k + 1);
          return None, HasChild(fields);
        }
        xml := xml + " " + key[1..] + "=\"" + ToString(value) + "\"";
      } else {
        hasChild := true;
      }
    }
    assert fields[..|fields|] == fields;
    return Some(xml), hasChild;
  }

  /** The second `for...in` loop: text, CDATA and child elements in key order. */
  method ChildrenToXml(fields: seq<(string, JsValue)>, ind: string) returns (r: Option<string>)
    ensures r == ChildrenXml(fields, ind)
    decreases fields, 0
  {
    var xml := "";
    for k := 0 to |fields|
      invariant ChildrenXml(fields[..k], ind) == Some(xml)
    {
      assert fields[..k + 1][..k] == fields[..k];
      var (key, value) := fields[k];
      if key == "#text" {
        xml := xml + ToString(value);
      } else if key == "#cdata" {
        xml := xml + "<![CDATA[" + ToString(value) + "]]>";
      } else if !IsAttributeKey(key) {
        assert value < fields[k];
        var child := XmlRecursive(value, key, ind + "\t");
        if child.None? {
          ChildrenXmlFailed(fields, ind, k + 1);
          return None;
        }
        xml := xml + child.value;
      }
    }
    assert fields[..|fields|] == fields;
    return Some(xml);
  }

  /** `toXML(obj, rootName)`: the XML declaration, then the root element. */
  method ToXmlText(obj: JsValue, rootName: string) returns (r: Option<string>)
    ensures r == ToXml(obj, rootName)
  {
    var body := XmlRecursive(obj, rootName, "");
    if body.None? {
      return None;
    }
    return Some(XmlDeclaration + body.value);
  }

  /**
   * Where `toXmlRecursive` meets a `toString()` it cannot call: a null or
   * undefined leaf, a null or undefined `@` attribute, or such a value
   * somewhere below an array item or a child element. `#text` and `#cdata`
   * values are concatenated, which never throws.
   */
  predicate Throws(v: JsValue)
    decreases v
  {
    match v
    case JArray(items) => exists k :: 0 <= k < |items| && Throws(items[k])
    case JObject(fields) =>
      exists k :: 0 <= k < |fields| &&
        ((IsAttributeKey(fields[k].0) && IsNullish(fields[k].1)) ||
         (IsElementKey(fields[k].0) && Throws(fields[k].1)))
    case _ => IsNullish(v)
  }

  /** `hasChild` is set exactly when some key is not an attribute key. */
  lemma {:induction false} HasChildIff(fields: seq<(string, JsValue)>)
    ensures HasChild(fields) <==> exists k :: 0 <= k < |fields| && !IsAttributeKey(fields[k].0)
  {
    if fields != [] {
      var n := |fields| - 1;
      HasChildIff(fields[..n]);
      if exists k :: 0 <= k < |fields| && !IsAttributeKey(fields[k].0) {
        var k :| 0 <= k < |fields| && !IsAttributeKey(fields[k].0);
        if k < n { assert fields[..n][k] == fields[k]; }
      }
      if HasChild(fields[..n]) {
        var k :| 0 <= k < n && !IsAttributeKey(fields[..n][k].0);
        assert fields[k] == fields[..n][k];
      }
    }
  }

  /** The attribute loop throws exactly when some `@` key holds null or undefined. */
  lemma {:induction false} AttributesXmlFailsIff(fields: seq<(string, JsValue)>)
    ensures AttributesXml(fields).None? <==>
      exists k :: 0 <= k < |fields| && IsAttributeKey(fields[k].0) && IsNullish(fields[k].1)
  {
    if fields != [] {
      var n := |fields| - 1;
      AttributesXmlFailsIff(fields[..n]);
      if exists k :: 0 <= k < |fields| && IsAttributeKey(fields[k].0) && IsNullish(fields[k].1) {
        var k :| 0 <= k < |fields| && IsAttributeKey(fields[k].0) && IsNullish(fields[k].1);
        if k < n { assert fields[..n][k] == fields[k]; }
      }
      if AttributesXml(fields[..n]).None? {
        var k :| 0 <= k < n && IsAttributeKey(fields[..n][k].0) && IsNullish(fields[..n][k].1);
        assert fields[k] == fields[..n][k];
      }
    }
  }

  /** The array branch throws exactly when some item does. */
  lemma {:induction false} ItemsXmlFailsIff(items: seq<JsValue>, name: string, ind: string)
    ensures ItemsXml(items, name, ind).None? <==> exists k :: 0 <= k < |items| && Throws(items[k])
    decreases items, 0
  {
    if items != [] {
      var n := |items| - 1;
      ItemsXmlFailsIff(items[..n], name, ind);
      XmlFailsIff(items[n], name, ind + "\t");
      if exists k :: 0 <= k < |items| && Throws(items[k]) {
        var k :| 0 <= k < |items| && Throws(items[k]);
        if k < n { assert items[..n][k] == items[k]; }
      }
      if ItemsXml(items[..n], name, ind).None? {
        var k :| 0 <= k < n && Throws(items[..n][k]);
        assert items[k] == items[..n][k];
      }
    }
  }

  /** The child loop throws exactly when some element-keyed value does. */
  lemma {:induction false} ChildrenXmlFailsIff(fields: seq<(string, JsValue)>, ind: string)
    ensures ChildrenXml(fields, ind).None? <==>
      exists k :: 0 <= k < |fields| && IsElementKey(fields[k].0) && Throws(fields[k].1)
    decreases fields, 0
  {
    if fields != [] {
      var n := |fields| - 1;
      ChildrenXmlFailsIff(fields[..n], ind);
      var last := fields[n];
      assert last.1 < last;
      XmlFailsIff(last.1, last.0, ind + "\t");
      if exists k :: 0 <= k < |fields| && IsElementKey(fields[k].0) && Throws(fields[k].1) {
        var k :| 0 <= k < |fields| && IsElementKey(fields[k].0) && Throws(fields[k].1);
        if k < n { assert fields[..n][k] == fields[k]; }
      }
      if ChildrenXml(fields[..n], ind).None? {
        var k :| 0 <= k < n && IsElementKey(fields[..n][k].0) && Throws(fields[..n][k].1);
        assert fields[k] == fields[..n][k];
      }
    }
  }

  /** `toXmlRecursive(v, name, ind)` throws if and only if `v` holds a value Throws points at. */
  lemma {:induction false} XmlFailsIff(v: JsValue, name: string, ind: string)
    ensures Xml(v, name, ind).None? <==> Throws(v)
    decreases v, 1
  {
    match v
    case JArray(items) =>
      ItemsXmlFailsIff(items, name, ind);
    case JObject(fields) =>
      AttributesXmlFailsIff(fields);
      ChildrenXmlFailsIff(fields, ind);
      HasChildIff(fields);
      if exists k :: 0 <= k < |fields| && IsElementKey(fields[k].0) && Throws(fields[k].1) {
        var k :| 0 <= k < |fields| && IsElementKey(fields[k].0) && Throws(fields[k].1);
        assert !IsAttributeKey(fields[k].0);
      }
      if Throws(v) {
        var k :| 0 <= k < |fields| &&
          ((IsAttributeKey(fields[k].0) && IsNullish(fields[k].1)) ||
           (IsElementKey(fields[k].0) && Throws(fields[k].1)));
        assert IsElementKey(fields[k].0) ==> !IsAttributeKey(fields[k].0);
      }
    case _ =>
  }

  /** `toXML({ analysis: result }, 'MediaQCPro')`, as the XML export calls it. */
  function ResultXml(result: AnalysisResult): Option<string> {
    ToXml(JObject([("analysis", ResultToJs(result))]), "MediaQCPro")
  }

  /** A track entry whose value is undefined and is rendered through `toString()`. */
  predicate HasUndefinedEntry(t: Track) {
    exists k :: 0 <= k < |t| && t[k].1 == Undefined && t[k].0 != "#text" && t[k].0 != "#cdata"
  }

  /** When the XML export of a result with this media information throws. */
  predicate XmlExportFails(info: MediaInfo) {
    || info.video.None?
    || HasUndefinedEntry(info.general)
    || (info.video.Some? && HasUndefinedEntry(info.video.value))
    || (exists i :: 0 <= i < |info.audio| && HasUndefinedEntry(info.audio[i]))
    || (exists i :: 0 <= i < |info.subtitles| && HasUndefinedEntry(info.subtitles[i]))
  }

  lemma TrackThrowsIff(t: Track)
    ensures Throws(TrackToJs(t)) <==> HasUndefinedEntry(t)
  {
    var fields := TrackToJs(t).fields;
    if HasUndefinedEntry(t) {
      var k :| 0 <= k < |t| && t[k].1 == Undefined && t[k].0 != "#text" && t[k].0 != "#cdata";
      assert fields[k] == (t[k].0, JUndefined);
    }
    if Throws(TrackToJs(t)) {
      var k :| 0 <= k < |fields| &&
        ((IsAttributeKey(fields[k].0) && IsNullish(fields[k].1)) ||
         (IsElementKey(fields[k].0) && Throws(fields[k].1)));
      assert fields[k] == (t[k].0, OfValue(t[k].1));
      assert t[k].1 == Undefined;
    }
  }

  lemma TracksThrowIff(ts: seq<Track>)
    ensures Throws(TracksToJs(ts)) <==> exists i :: 0 <= i < |ts| && HasUndefinedEntry(ts[i])
  {
    var items := TracksToJs(ts).items;
    if exists i :: 0 <= i < |ts| && HasUndefinedEntry(ts[i]) {
      var i :| 0 <= i < |ts| && HasUndefinedEntry(ts[i]);
      TrackThrowsIff(ts[i]);
      assert items[i] == TrackToJs(ts[i]);
    }
    if Throws(TracksToJs(ts)) {
      var i :| 0 <= i < |items| && Throws(items[i]);
      TrackThrowsIff(ts[i]);
    }
  }

  lemma MediaInfoThrowsIff(info: MediaInfo)
    ensures Throws(MediaInfoToJs(info)) <==> XmlExportFails(info)
  {
    MediaInfoFieldsThrow(info);
    TrackThrowsIff(info.general);
    if info.video.Some? {
      TrackThrowsIff(info.video.value);
    }
    TracksThrowIff(info.audio);
    TracksThrowIff(info.subtitles);
  }

  /** The MediaInfo object throws iff one of its four members does (`video` may be `null`). */
  lemma MediaInfoFieldsThrow(info: MediaInfo)
    ensures Throws(MediaInfoToJs(info)) <==>
      || Throws(TrackToJs(info.general))
      || info.video.None?
      || (info.video.Some? && Throws(TrackToJs(info.video.value)))
      || Throws(TracksToJs(info.audio))
      || Throws(TracksToJs(info.subtitles))
  {
    var fields := MediaInfoToJs(info).fields;
    assert forall k :: 0 <= k < |fields| ==> IsElementKey(fields[k].0);
    assert Throws(fields[1].1) <==> info.video.None? || (info.video.Some? && Throws(TrackToJs(info.video.value)));
    assert Throws(MediaInfoToJs(info)) <==> exists k :: 0 <= k < |fields| && Throws(fields[k].1);
    assert (exists k :: 0 <= k < |fields| && Throws(fields[k].1)) <==>
      Throws(fields[0].1) || Throws(fields[1].1) || Throws(fields[2].1) || Throws(fields[3].1);
  }

  lemma IssuesNeverThrow(issues: seq<QCIssue>)
    ensures !Throws(IssuesToJs(issues))
  {
    var items := IssuesToJs(issues).items;
    forall k | 0 <= k < |items|
      ensures !Throws(items[k])
    {
      var fields := items[k].fields;
      assert forall j :: 0 <= j < |fields| ==> fields[j].1.JStr?;
    }
  }

  lemma ResultThrowsIff(result: AnalysisResult)
    ensures Throws(ResultToJs(result)) <==> XmlExportFails(result.mediaInfo)
  {
    var r := ResultToJs(result);
    MediaInfoThrowsIff(result.mediaInfo);
    IssuesNeverThrow(result.qcIssues);
    var fields := r.fields;
    if Throws(MediaInfoToJs(result.mediaInfo)) {
      assert fields[3].1 == MediaInfoToJs(result.mediaInfo);
    } else {
      forall k | 0 <= k < |fields|
        ensures !Throws(fields[k].1)
      {
        if k == 4 {
          assert fields[k].1 == IssuesToJs(result.qcIssues);
        }
      }
    }
  }

  /**
   * Exporting a result as XML fails exactly when it has no video track (the
   * `null` reaches `toString()`), or some track entry is undefined.
   */
  lemma ResultXmlFailsIff(result: AnalysisResult)
    ensures ResultXml(result).None? <==> XmlExportFails(result.mediaInfo)
  {
    var r := ResultToJs(result);
    var root := JObject([("analysis", r)]);
    XmlFailsIff(root, "MediaQCPro", "");
    ResultThrowsIff(result);
    assert Throws(root) <==> Throws(r) by {
      assert root.fields[0] == ("analysis", r);
    }
  }

  /** Without `@` keys the attribute loop adds nothing. */
  lemma {:induction false} NoAttributes(fields: seq<(string, JsValue)>)
    requires forall k :: 0 <= k < |fields| ==> !IsAttributeKey(fields[k].0)
    ensures AttributesXml(fields) == Some("")
  {
    if fields != [] {
      NoAttributes(fields[..|fields| - 1]);
    }
  }

  /**
   * An object renders as one element named after its key: it opens with
   * `<name`, and closes with `</name>` when some key is not an attribute,
   * otherwise it is exactly the self-closing `<name attributes/>`.
   */
  lemma XmlObjectShape(fields: seq<(string, JsValue)>, name: string, ind: string)
    requires Xml(JObject(fields), name, ind).Some?
    ensures StartsWithAt(Xml(JObject(fields), name, ind).value, 0, ind + "<" + name)
    ensures HasChild(fields) ==> EndsWith(Xml(JObject(fields), name, ind).value, "</" + name + ">")
    ensures !HasChild(fields) ==>
      Xml(JObject(fields), name, ind).value == ind + "<" + name + AttributesXml(fields).value + "/>"
  {
    var x := Xml(JObject(fields), name, ind).value;
    var open := ind + "<" + name;
    assert x[..|open|] == open;
    if HasChild(fields) {
      var close := "</" + name + ">";
      assert x[|x| - |close|..] == close;
    }
  }

  /** An array renders as nothing when empty, and as one line per item otherwise. */
  lemma {:induction false} ItemsXmlLines(items: seq<JsValue>, name: string, ind: string)
    requires ItemsXml(items, name, ind).Some?
    ensures multiset(ItemsXml(items, name, ind).value)['\n'] >= |items|
    ensures items == [] ==> ItemsXml(items, name, ind).value == ""
    ensures items != [] ==> EndsWith(ItemsXml(items, name, ind).value, "\n")
  {
    if items != [] {
      var n := |items| - 1;
      ItemsXmlLines(items[..n], name, ind);
      var x := ItemsXml(items, name, ind).value;
      assert x == ItemsXml(items[..n], name, ind).value + ind + Xml(items[n], name, ind + "\t").value + "\n";
      assert x[|x| - 1..] == "\n";
    }
  }

  /** The last child of a result object is the `qcSummary` scalar, so its children end in `>`. */
  lemma ResultChildrenEnd(result: AnalysisResult)
    requires ChildrenXml(ResultToJs(result).fields, "\t").Some?
    ensures var c := ChildrenXml(ResultToJs(result).fields, "\t").value; c != "" && c[|c| - 1] == '>'
  {
    var fs := ResultToJs(result).fields;
    var n := |fs| - 1;
    assert ChildrenXml(fs[..n], "\t").Some?;
    assert fs[n] == ("qcSummary", JStr(result.qcSummary));
    var summary := "\t" + "\t" + "<" + "qcSummary" + ">" + result.qcSummary + "</" + "qcSummary" + ">";
    assert Xml(JStr(result.qcSummary), "qcSummary", "\t" + "\t") == Some(summary);
    assert ChildrenXml(fs, "\t").value == ChildrenXml(fs[..n], "\t").value + summary;
    assert summary[|summary| - 1] == '>';
  }

  /** An object without attributes whose children do not end a line closes on the same line. */
  lemma ElementWithChildren(fields: seq<(string, JsValue)>, name: string, ind: string, children: string)
    requires AttributesXml(fields) == Some("") && HasChild(fields)
    requires ChildrenXml(fields, ind) == Some(children) && children != [] && children[|children| - 1] != '\n'
    ensures Xml(JObject(fields), name, ind) == Some((ind + "<" + name + ">") + children + ("</" + name + ">"))
  {
    var open := ind + "<" + name + "";
    var body := open + ">" + children;
    assert body[|body| - 1] == children[|children| - 1];
    assert Xml(JObject(fields), name, ind) == Some(body + "" + "</" + name + ">");
    assert open == ind + "<" + name;
    assert body + "" + "</" + name + ">" == (ind + "<" + name + ">") + children + ("</" + name + ">");
  }

  /** A result that exports renders as one `analysis` element whose closing tag is not indented. */
  lemma AnalysisElement(result: AnalysisResult)
    requires !XmlExportFails(result.mediaInfo)
    ensures ChildrenXml(ResultToJs(result).fields, "\t").Some?
    ensures Xml(ResultToJs(result), "analysis", "\t") ==
      Some("\t<analysis>" + ChildrenXml(ResultToJs(result).fields, "\t").value + "</analysis>")
  {
    var r := ResultToJs(result);
    var fs := r.fields;
    ResultThrowsIff(result);
    XmlFailsIff(r, "analysis", "\t");
    NoAttributes(fs);
    HasChildIff(fs);
    assert !IsAttributeKey(fs[0].0);
    ResultChildrenEnd(result);
    ElementWithChildren(fs, "analysis", "\t", ChildrenXml(fs, "\t").value);
    AnalysisTags();
  }

  lemma AnalysisTags()
    ensures "\t" + "<" + "analysis" + ">" == "\t<analysis>"
    ensures "</" + "analysis" + ">" == "</analysis>"
  {
  }

  /** `toXML({ analysis: x }, 'MediaQCPro')` wraps the `analysis` element in the root element. */
  lemma RootElement(x: JsValue, a: string)
    requires Xml(x, "analysis", "\t") == Some(a) && a != "" && a[|a| - 1] == '>'
    ensures Xml(JObject([("analysis", x)]), "MediaQCPro", "") == Some("<MediaQCPro>" + a + "</MediaQCPro>")
  {
    RootTags();
    SingleElementRoot(x, "analysis", "MediaQCPro", a);
  }

  lemma RootTags()
    ensures IsElementKey("analysis")
    ensures "<" + "MediaQCPro" + ">" == "<MediaQCPro>"
    ensures "</" + "MediaQCPro" + ">" == "</MediaQCPro>"
  {
  }

  /** A root object with a single element child renders as that child inside the root's tags. */
  lemma SingleElementRoot(x: JsValue, key: string, name: string, a: string)
    requires IsElementKey(key)
    requires Xml(x, key, "\t") == Some(a) && a != "" && a[|a| - 1] == '>'
    ensures Xml(JObject([(key, x)]), name, "") == Some(("<" + name + ">") + a + ("</" + name + ">"))
  {
    var root := [(key, x)];
    assert AttributesXml(root) == Some("") by { NoAttributes(root); }
    assert HasChild(root) by { assert !IsAttributeKey(root[0].0); }
    assert ChildrenXml(root, "") == Some(a) by {
      SingleChild(key, x, "");
      assert "" + "\t" == "\t";
    }
    ElementWithChildren(root, name, "", a);
    assert "" + "<" + name + ">" == "<" + name + ">";
  }

  lemma SingleChild(key: string, x: JsValue, ind: string)
    requires IsElementKey(key)
    ensures ChildrenXml([(key, x)], ind) == Xml(x, key, ind + "\t")
  {
    var fields := [(key, x)];
    assert fields[..0] == [];
    assert fields[0].1 < fields[0];
    match Xml(x, key, ind + "\t")
    case None =>
    case Some(c) => assert "" + c == c;
  }

  lemma Regroup(d: string, a: string, b: string, c: string, e: string, f: string)
    ensures d + (a + (b + c + e) + f) == (d + (a + b)) + (c + (e + f))
  {
  }

  /** The document around an `analysis` element: declaration, root open tag, ..., both closing tags. */
  lemma DocumentShape(x: JsValue, children: string)
    requires Xml(x, "analysis", "\t") == Some("\t<analysis>" + children + "</analysis>")
    ensures ToXml(JObject([("analysis", x)]), "MediaQCPro").Some?
    ensures StartsWithAt(ToXml(JObject([("analysis", x)]), "MediaQCPro").value, 0, XmlDeclaration + "<MediaQCPro>\t<analysis>")
    ensures EndsWith(ToXml(JObject([("analysis", x)]), "MediaQCPro").value, "</analysis></MediaQCPro>")
  {
    var analysis := "\t<analysis>" + children + "</analysis>";
    RootElement(x, analysis);
    var doc := XmlDeclaration + ("<MediaQCPro>" + analysis + "</MediaQCPro>");
    assert ToXml(JObject([("analysis", x)]), "MediaQCPro") == Some(doc);
    var open := "<MediaQCPro>\t<analysis>";
    var close := "</analysis></MediaQCPro>";
    DocumentTags();
    Regroup(XmlDeclaration, "<MediaQCPro>", "\t<analysis>", children, "</analysis>", "</MediaQCPro>");
    ConcatEnds(XmlDeclaration + open, children + close);
    ConcatEnds(XmlDeclaration + open + children, close);
  }

  lemma DocumentTags()
    ensures "<MediaQCPro>\t<analysis>" == "<MediaQCPro>" + "\t<analysis>"
    ensures "</analysis></MediaQCPro>" == "</analysis>" + "</MediaQCPro>"
  {
  }

  /**
   * A result that exports renders as the XML declaration, a `MediaQCPro` root
   * and one `analysis` element; since its last child is the `qcSummary` scalar,
   * neither closing tag is indented.
   */
  lemma ResultXmlShape(result: AnalysisResult)
    requires !XmlExportFails(result.mediaInfo)
    ensures ResultXml(result).Some?
    ensures StartsWithAt(ResultXml(result).value, 0, XmlDeclaration + "<MediaQCPro>\t<analysis>")
    ensures EndsWith(ResultXml(result).value, "</analysis></MediaQCPro>")
  {
    AnalysisElement(result);
    DocumentShape(ResultToJs(result), ChildrenXml(ResultToJs(result).fields, "\t").value);
  }

  /** A track whose keys are all plain element names and whose values are all defined. */
  predicate PlainTrack(t: Track) {
    forall k :: 0 <= k < |t| ==> IsElementKey(t[k].0) && t[k].1 != Undefined
  }

  /** One attribute as an element: `ind<key>String(value)</key>`. */
  function LeafElement(key: string, v: Value, ind: string): string {
    ind + "<" + key + ">" + ToJsString(v) + "</" + key + ">"
  }

  /** The leaf elements of a track's entries, in entry order, with no line breaks between them. */
  function LeafElements(t: Track, ind: string): string {
    if t == [] then ""
    else LeafElements(t[..|t| - 1], ind) + LeafElement(t[|t| - 1].0, t[|t| - 1].1, ind)
  }

  /** A plain track as an element: self-closing when empty, otherwise its leaves between the tags. */
  function TrackElement(t: Track, name: string, ind: string): string {
    if t == [] then ind + "<" + name + "/>"
    else ind + "<" + name + ">" + LeafElements(t, ind + "\t") + "</" + name + ">"
  }

  /** A list of plain tracks: per track, the list's indentation, the element one tab deeper, and a line break. */
  function TrackElementLines(ts: seq<Track>, name: string, ind: string): string {
    if ts == [] then ""
    else TrackElementLines(ts[..|ts| - 1], name, ind) + ind + TrackElement(ts[|ts| - 1], name, ind + "\t") + "\n"
  }

  /** A defined scalar renders as `ind<name>String(v)</name>`. */
  lemma LeafXml(v: Value, name: string, ind: string)
    requires v != Undefined
    ensures Xml(OfValue(v), name, ind) == Some(LeafElement(name, v, ind))
  {
    ToStringOfValue(v);
  }

  /** The child loop over a plain track emits one leaf element per entry, one tab deeper, in entry order. */
  lemma {:induction false} TrackChildren(t: Track, ind: string)
    requires PlainTrack(t)
    ensures ChildrenXml(TrackToJs(t).fields, ind) == Some(LeafElements(t, ind + "\t"))
  {
    if t != [] {
      var n := |t| - 1;
      TrackChildren(t[..n], ind);
      assert TrackToJs(t).fields[..n] == TrackToJs(t[..n]).fields;
      LeafXml(t[n].1, t[n].0, ind + "\t");
    }
  }

  /** A non-empty run of leaf elements ends with the `>` of its last closing tag. */
  lemma LeafElementsEnd(t: Track, ind: string)
    requires t != []
    ensures var x := LeafElements(t, ind); x != [] && x[|x| - 1] == '>'
  {
    var n := |t| - 1;
    var last := LeafElement(t[n].0, t[n].1, ind);
    assert last[|last| - 1] == '>';
    assert LeafElements(t, ind) == LeafElements(t[..n], ind) + last;
  }

  /** One unfolding of the object branch once both loops have succeeded and some key is not an attribute. */
  lemma ObjectXmlOf(fields: seq<(string, JsValue)>, name: string, ind: string, attributes: string, children: string)
    requires AttributesXml(fields) == Some(attributes) && HasChild(fields)
    requires ChildrenXml(fields, ind) == Some(children)
    ensures var body := ind + "<" + name + attributes + ">" + children;
      Xml(JObject(fields), name, ind) == Some(body + (if body[|body| - 1] == '\n' then ind else "") + "</" + name + ">")
  {
  }

  /** A plain track has no attributes, and a non-empty one has children. */
  lemma PlainTrackKeys(t: Track)
    requires PlainTrack(t)
    ensures AttributesXml(TrackToJs(t).fields) == Some("")
    ensures t != [] ==> HasChild(TrackToJs(t).fields)
  {
    var fields := TrackToJs(t).fields;
    forall k | 0 <= k < |fields|
      ensures !IsAttributeKey(fields[k].0)
    {
      assert fields[k].0 == t[k].0;
    }
    NoAttributes(fields);
    if t != [] {
      HasChildIff(fields);
      assert !IsAttributeKey(fields[0].0);
    }
  }

  lemma EmptyTrackXml(name: string, ind: string)
    ensures Xml(TrackToJs([]), name, ind) == Some(TrackElement([], name, ind))
  {
    assert TrackToJs([]) == JObject([]);
    assert AttributesXml([]) == Some("");
    assert !HasChild([]);
    assert TrackElement([], name, ind) == ind + "<" + name + "/>";
    assert Xml(JObject([]), name, ind) == Some(ind + "<" + name + "" + "/>");
    assert ind + "<" + name + "" + "/>" == ind + "<" + name + "/>";
  }

  lemma NonEmptyTrackXml(t: Track, name: string, ind: string)
    requires PlainTrack(t) && t != []
    ensures Xml(TrackToJs(t), name, ind) == Some(TrackElement(t, name, ind))
  {
    var fields := TrackToJs(t).fields;
    var leaves := LeafElements(t, ind + "\t");
    PlainTrackKeys(t);
    TrackChildren(t, ind);
    LeafElementsEnd(t, ind + "\t");
    ElementWithChildren(fields, name, ind, leaves);
    TrackElementTags(t, name, ind);
  }

  lemma TrackElementTags(t: Track, name: string, ind: string)
    requires t != []
    ensures TrackElement(t, name, ind) ==
      (ind + "<" + name + ">") + LeafElements(t, ind + "\t") + ("</" + name + ">")
  {
  }

  /**
   * A plain track renders as `ind<name>`, then `ind\t<key>value</key>` for
   * each entry in order, then `</name>` on the same line; an empty track as
   * `ind<name/>`.
   */
  lemma TrackXml(t: Track, name: string, ind: string)
    requires PlainTrack(t)
    ensures Xml(TrackToJs(t), name, ind) == Some(TrackElement(t, name, ind))
  {
    if t == [] {
      EmptyTrackXml(name, ind);
    } else {
      NonEmptyTrackXml(t, name, ind);
    }
  }

  /** The array loop over the objects of a list of plain tracks: one line per track, in list order. */
  lemma {:induction false} TracksItemsXml(ts: seq<Track>, items: seq<JsValue>, name: string, ind: string)
    requires |items| == |ts|
    requires forall i :: 0 <= i < |ts| ==> PlainTrack(ts[i]) && items[i] == TrackToJs(ts[i])
    ensures ItemsXml(items, name, ind) == Some(TrackElementLines(ts, name, ind))
  {
    if ts != [] {
      var n := |ts| - 1;
      TracksItemsXml(ts[..n], items[..n], name, ind);
      TrackXml(ts[n], name, ind + "\t");
      ItemsXmlSnoc(items, name, ind, TrackElementLines(ts[..n], name, ind), TrackElement(ts[n], name, ind + "\t"));
    }
  }

  /**
   * A list of plain tracks renders as repeated sibling elements, all named
   * after the field: for each track, `ind`, the track's element indented one
   * tab deeper, and a line break, in list order.
   */
  lemma TracksXml(ts: seq<Track>, name: string, ind: string)
    requires forall i :: 0 <= i < |ts| ==> PlainTrack(ts[i])
    ensures Xml(TracksToJs(ts), name, ind) == Some(TrackElementLines(ts, name, ind))
  {
    TracksItemsXml(ts, TracksToJs(ts).items, name, ind);
  }

  /** One more item adds the list's indentation, the item's rendering and a line break. */
  lemma ItemsXmlSnoc(items: seq<JsValue>, name: string, ind: string, before: string, item: string)
    requires items != []
    requires ItemsXml(items[..|items| - 1], name, ind) == Some(before)
    requires Xml(items[|items| - 1], name, ind + "\t") == Some(item)
    ensures ItemsXml(items, name, ind) == Some(before + ind + item + "\n")
  {
  }

  /** The two loops over `{ '@attr': a, '#text': s }`: one attribute, and the raw text as the only child. */
  lemma AttributeAndTextLoops(attr: string, a: string, s: string, ind: string)
    ensures AttributesXml([("@" + attr, JStr(a)), ("#text", JStr(s))]) == Some(" " + attr + "=\"" + a + "\"")
    ensures HasChild([("@" + attr, JStr(a)), ("#text", JStr(s))])
    ensures ChildrenXml([("@" + attr, JStr(a)), ("#text", JStr(s))], ind) == Some(s)
  {
    var key := "@" + attr;
    var first := [(key, JStr(a))];
    var fields := first + [("#text", JStr(s))];
    assert fields == [("@" + attr, JStr(a)), ("#text", JStr(s))];
    assert key[0] == '@' && key[1..] == attr;
    assert IsAttributeKey(key) && !IsAttributeKey("#text");
    assert key != "#text" && key != "#cdata";
    assert first[..0] == [];
    assert CallToString(JStr(a)) == Some(a);
    assert AttributesXml(first) == Some("" + " " + key[1..] + "=\"" + a + "\"");
    assert "" + " " + key[1..] + "=\"" + a + "\"" == " " + attr + "=\"" + a + "\"";
    assert fields[..1] == first;
    assert ChildrenXml(first, ind) == Some("");
    assert ChildrenXml(fields, ind) == Some("" + s);
    assert "" + s == s;
  }

  /** The object branch in full, with the closing indentation decided from the last character. */
  lemma ObjectXmlClose(fields: seq<(string, JsValue)>, name: string, ind: string, attributes: string, children: string, close: string)
    requires AttributesXml(fields) == Some(attributes) && HasChild(fields)
    requires ChildrenXml(fields, ind) == Some(children)
    requires var body := ind + "<" + name + attributes + ">" + children;
      close == if body[|body| - 1] == '\n' then ind else ""
    ensures Xml(JObject(fields), name, ind) == Some(ind + "<" + name + attributes + ">" + children + close + "</" + name + ">")
  {
    ObjectXmlOf(fields, name, ind, attributes, children);
  }

  /** The opening tag with one attribute ends a line only through the text after it. */
  lemma AttributeOpenTag(attr: string, a: string, s: string, name: string, ind: string)
    ensures var body := ind + "<" + name + (" " + attr + "=\"" + a + "\"") + ">" + s;
      && (if body[|body| - 1] == '\n' then ind else "") == (if s != [] && s[|s| - 1] == '\n' then ind else "")
      && body == ind + "<" + name + " " + attr + "=\"" + a + "\">" + s
  {
    var body := ind + "<" + name + (" " + attr + "=\"" + a + "\"") + ">" + s;
    assert s != [] ==> body[|body| - 1] == s[|s| - 1];
    assert s == [] ==> body[|body| - 1] == '>';
  }

  /**
   * An `@` key becomes an attribute without its `@`, and `#text` is inserted
   * raw: `{ '@attr': a, '#text': s }` renders as `ind<name attr="a">s</name>`,
   * with `ind` before the closing tag only when s ends a line.
   */
  lemma AttributeAndText(attr: string, a: string, s: string, name: string, ind: string)
    ensures Xml(JObject([("@" + attr, JStr(a)), ("#text", JStr(s))]), name, ind) ==
      Some(ind + "<" + name + " " + attr + "=\"" + a + "\">" + s +
           (if s != [] && s[|s| - 1] == '\n' then ind else "") + "</" + name + ">")
  {
    var close := if s != [] && s[|s| - 1] == '\n' then ind else "";
    AttributeAndTextLoops(attr, a, s, ind);
    AttributeOpenTag(attr, a, s, name, ind);
    ObjectXmlClose([("@" + attr, JStr(a)), ("#text", JStr(s))], name, ind, " " + attr + "=\"" + a + "\"", s, close);
  }

  /** `#cdata` is wrapped: `{ '#cdata': s }` renders as `ind<name><![CDATA[s]]></name>`. */
  lemma CdataElement(s: string, name: string, ind: string)
    ensures Xml(JObject([("#cdata", JStr(s))]), name, ind) ==
      Some(ind + "<" + name + "><![CDATA[" + s + "]]></" + name + ">")
  {
    var fields := [("#cdata", JStr(s))];
    assert fields[..0] == [];
    assert !IsAttributeKey("#cdata") && "#cdata" != "#text";
    assert AttributesXml(fields) == Some("");
    assert HasChild(fields);
    assert ToString(JStr(s)) == s;
    assert ChildrenXml(fields[..0], ind) == Some("");
    assert fields[|fields| - 1].0 == "#cdata";
    assert ChildrenXml(fields, ind) == Some("" + "<![CDATA[" + s + "]]>");
    var children := "<![CDATA[" + s + "]]>";
    assert "" + "<![CDATA[" + s + "]]>" == children;
    assert children[|children| - 1] == '>';
    ElementWithChildren(fields, name, ind, children);
    assert ">" + "<![CDATA[" == "><![CDATA[";
    assert "]]>" + "</" == "]]></";
    assert (ind + "<" + name + ">") + children + ("</" + name + ">") ==
      ind + "<" + name + "><![CDATA[" + s + "]]></" + name + ">";
  }
}
