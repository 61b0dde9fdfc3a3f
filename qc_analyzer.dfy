/**
 * The QC rule engine (services/qcAnalyzer.ts). Five independent rules look at
 * one MediaInfo; every rule that fires pushes one issue, in the fixed order
 * VFR, missing audio, missing video, duration mismatch per audio track,
 * missing language per audio track. Nothing short-circuits on an Error.
 *
 * The specification is declarative: `Fires` says when each rule fires,
 * `RuleOrder` lists the rule slots in order, and the issues are the slots
 * that fire. `AnalyzeQC` builds the list the way the source does, by pushing
 * inside two loops over the audio tracks, and is proved to give that list.
 */
module QcAnalyzer {
  import opened JsText
  import opened JsNumber
  import opened Types

  /**
   * How the host prints a double into detail text: `${d}` and `d.toFixed(2)`.
   * Binary64 formatting is not part of this model, so it is supplied.
   */
  datatype NumberText = NumberText(show: Double -> string, fixed2: Double -> string)

  /** One rule slot: the three single rules and the two rules per audio track. */
  datatype Rule = Vfr | MissingAudio | MissingVideo | DurationMismatch(index: nat) | MissingLang(index: nat)

  function RuleId(r: Rule): string {
    match r
    case Vfr => "vfr_detected"
    case MissingAudio => "missing_audio"
    case MissingVideo => "missing_video"
    case DurationMismatch(i) => "duration_mismatch_" + NatToString(i)
    case MissingLang(i) => "missing_lang_" + NatToString(i)
  }

  function RuleSeverity(r: Rule): Severity {
    match r
    case MissingAudio => Error
    case MissingVideo => Error
    case _ => Warning
  }

  /** `prefix` followed by at least one decimal digit and nothing else. */
  predicate IndexedId(id: string, prefix: string) {
    |prefix| < |id| && id[..|prefix|] == prefix && forall k :: |prefix| <= k < |id| ==> IsDigit(id[k])
  }

  /** Reads an issue id back as the rule slot that produces it; None for any other string. */
  function RuleOfId(id: string): Option<Rule> {
    if id == "vfr_detected" then Some(Vfr)
    else if id == "missing_audio" then Some(MissingAudio)
    else if id == "missing_video" then Some(MissingVideo)
    else if IndexedId(id, "duration_mismatch_") then Some(DurationMismatch(DecimalValue(id[18..])))
    else if IndexedId(id, "missing_lang_") then Some(MissingLang(DecimalValue(id[13..])))
    else None
  }

  /** Every issue id names its rule slot, track index included. */
  lemma RuleOfIdRuleId(r: Rule)
    ensures RuleOfId(RuleId(r)) == Some(r)
  {
    var id := RuleId(r);
    match r
    case DurationMismatch(i) =>
      assert id[0] == 'd';
      assert id[18..] == NatToString(i);
      DecimalValueOfNatToString(i);
    case MissingLang(i) =>
      assert id[0] == 'm' && id[8] == 'l';
      assert id[13..] == NatToString(i);
      DecimalValueOfNatToString(i);
    case _ =>
  }

  /** Hence distinct rule slots never share an issue id. */
  lemma RuleIdInjective(r1: Rule, r2: Rule)
    ensures RuleId(r1) == RuleId(r2) ==> r1 == r2
  {
    RuleOfIdRuleId(r1);
    RuleOfIdRuleId(r2);
  }

  /** `v?.toString() || '0'`: an absent or empty duration reads as "0". */
  function DurationText(v: Value): string {
    match v
    case Undefined => "0"
    case _ => if ToJsString(v) == "" then "0" else ToJsString(v)
  }

  /** `parseFloat(track.duration?.toString() || '0')`. */
  function TrackDuration(t: Track): Double {
    ParseFloat(DurationText(Lookup(t, "duration")))
  }

  /** `general.format?.toString().toLowerCase().includes('audio')`, false when `format` is absent. */
  predicate FormatSaysAudio(general: Track) {
    match Lookup(general, "format")
    case Undefined => false
    case v => Includes(ToLower(ToJsString(v)), "audio")
  }

  /** When each rule fires: the conditions of the five `if`s. */
  predicate Fires(info: MediaInfo, r: Rule) {
    match r
    case Vfr =>
      info.video.Some? && Lookup(info.video.value, "frame_rate_mode") == Str("VFR")
    case MissingAudio =>
      info.video.Some? && |info.audio| == 0
    case MissingVideo =>
      info.video.None? && !FormatSaysAudio(info.general)
    case DurationMismatch(i) =>
      info.video.Some? && i < |info.audio|
      && ExceedsHalf(Abs(Sub(TrackDuration(info.video.value), TrackDuration(info.audio[i]))))
    case MissingLang(i) =>
      i < |info.audio| && IsFalsy(Lookup(info.audio[i], "language"))
  }

  // The fixed texts of the five issues.
  const VfrTitle: string := "Variable Frame Rate (VFR) Detected"
  const VfrText: string := "The video track uses VFR, which can cause sync issues in some editing software. Frame rate: "
  const MissingAudioTitle: string := "Missing Audio Stream"
  const MissingAudioText: string := "The file contains a video track but no audio tracks were found."
  const MissingVideoTitle: string := "Missing Video Stream"
  const MissingVideoText: string := "The file does not appear to be an audio-only format but contains no video track."
  const DurationTitle: string := "Audio/Video Duration Mismatch"
  const LangTitle: string := "Missing Audio Language Tag"
  const LangText: string := " does not have a language tag specified."

  function VfrIssue(frameRate: Value): QCIssue {
    QCIssue("vfr_detected", VfrTitle, VfrText + ToJsString(frameRate), Warning)
  }

  function MissingAudioIssue(): QCIssue {
    QCIssue("missing_audio", MissingAudioTitle, MissingAudioText, Error)
  }

  function MissingVideoIssue(): QCIssue {
    QCIssue("missing_video", MissingVideoTitle, MissingVideoText, Error)
  }

  function DurationIssue(index: nat, videoDuration: Double, audioDuration: Double, diff: Double, fmt: NumberText): QCIssue {
    QCIssue("duration_mismatch_" + NatToString(index), DurationTitle,
      "Video duration (" + fmt.show(videoDuration) + "s) and Audio Stream #" + NatToString(index + 1)
        + " duration (" + fmt.show(audioDuration) + "s) differ by " + fmt.fixed2(diff) + "s.",
      Warning)
  }

  function LangIssue(index: nat): QCIssue {
    QCIssue("missing_lang_" + NatToString(index), LangTitle,
      "Audio Stream #" + NatToString(index + 1) + LangText, Warning)
  }

  /** The video track, or no attributes when there is none (only used for rules that fire). */
  function VideoTrack(info: MediaInfo): Track {
    match info.video
    case Some(t) => t
    case None => []
  }

  function AudioTrack(info: MediaInfo, i: nat): Track {
    if i < |info.audio| then info.audio[i] else []
  }

  /** The issue a firing rule pushes. */
  function IssueFor(info: MediaInfo, fmt: NumberText, r: Rule): QCIssue {
    match r
    case Vfr => VfrIssue(Lookup(VideoTrack(info), "frame_rate"))
    case MissingAudio => MissingAudioIssue()
    case MissingVideo => MissingVideoIssue()
    case DurationMismatch(i) =>
      var vd := TrackDuration(VideoTrack(info));
      var ad := TrackDuration(AudioTrack(info, i));
      DurationIssue(i, vd, ad, Abs(Sub(vd, ad)), fmt)
    case MissingLang(i) => LangIssue(i)
  }

  lemma IssueForIdentity(info: MediaInfo, fmt: NumberText, r: Rule)
    ensures IssueFor(info, fmt, r).id == RuleId(r)
    ensures IssueFor(info, fmt, r).severity == RuleSeverity(r)
  {
  }

  const SingleRules: seq<Rule> := [Vfr, MissingAudio, MissingVideo]

  function DurationRules(n: nat): seq<Rule> {
    seq(n, i requires 0 <= i < n => DurationMismatch(i))
  }

  function LangRules(n: nat): seq<Rule> {
    seq(n, i requires 0 <= i < n => MissingLang(i))
  }

  /** Every rule slot for `n` audio tracks, in the order the rules run. */
  function RuleOrder(n: nat): seq<Rule> {
    SingleRules + DurationRules(n) + LangRules(n)
  }

  /** The slots of `rs` that fire, in their order. */
  function Filter(info: MediaInfo, rs: seq<Rule>): seq<Rule>
    decreases |rs|
  {
    if rs == [] then []
    else Filter(info, rs[..|rs| - 1]) + (if Fires(info, rs[|rs| - 1]) then [rs[|rs| - 1]] else [])
  }

  function FiredRules(info: MediaInfo): seq<Rule> {
    Filter(info, RuleOrder(|info.audio|))
  }

  /** The issue of each slot in `rs`, in order. */
  function IssuesOf(info: MediaInfo, fmt: NumberText, rs: seq<Rule>): seq<QCIssue>
    decreases |rs|
  {
    if rs == [] then [] else IssuesOf(info, fmt, rs[..|rs| - 1]) + [IssueFor(info, fmt, rs[|rs| - 1])]
  }

  /** analyzeQC as specified: the issues of the rules that fire, in rule order. */
  function QcIssues(info: MediaInfo, fmt: NumberText): seq<QCIssue> {
    IssuesOf(info, fmt, FiredRules(info))
  }

  lemma FilterSnoc(info: MediaInfo, rs: seq<Rule>, r: Rule)
    ensures Filter(info, rs + [r]) == Filter(info, rs) + (if Fires(info, r) then [r] else [])
  {
    assert (rs + [r])[..|rs|] == rs;
  }

  lemma IssuesOfSnoc(info: MediaInfo, fmt: NumberText, rs: seq<Rule>, r: Rule)
    ensures IssuesOf(info, fmt, rs + [r]) == IssuesOf(info, fmt, rs) + [IssueFor(info, fmt, r)]
  {
    assert (rs + [r])[..|rs|] == rs;
  }

  lemma {:induction false} IssuesOfAppend(info: MediaInfo, fmt: NumberText, a: seq<Rule>, b: seq<Rule>)
    ensures IssuesOf(info, fmt, a + b) == IssuesOf(info, fmt, a) + IssuesOf(info, fmt, b)
    decreases |b|
  {
    if b == [] {
      assert a + b == a;
    } else {
      var b', last := b[..|b| - 1], b[|b| - 1];
      assert b == b' + [last];
      assert a + b == (a + b') + [last];
      IssuesOfAppend(info, fmt, a, b');
      IssuesOfSnoc(info, fmt, a + b', last);
      IssuesOfSnoc(info, fmt, b', last);
      var x, y, z := IssuesOf(info, fmt, a), IssuesOf(info, fmt, b'), [IssueFor(info, fmt, last)];
      assert (x + y) + z == x + (y + z);
    }
  }

  lemma {:induction false} FilterAppend(info: MediaInfo, a: seq<Rule>, b: seq<Rule>)
    ensures Filter(info, a + b) == Filter(info, a) + Filter(info, b)
    decreases |b|
  {
    if b == [] {
      assert a + b == a;
    } else {
      var b', last := b[..|b| - 1], b[|b| - 1];
      assert b == b' + [last];
      assert a + b == (a + b') + [last];
      FilterAppend(info, a, b');
      FilterSnoc(info, a + b', last);
      FilterSnoc(info, b', last);
    }
  }

  lemma {:induction false} FilterNoneFire(info: MediaInfo, rs: seq<Rule>)
    requires forall k :: 0 <= k < |rs| ==> !Fires(info, rs[k])
    ensures Filter(info, rs) == []
    decreases |rs|
  {
    if rs != [] {
      FilterNoneFire(info, rs[..|rs| - 1]);
    }
  }

  lemma {:induction false} FilterMembers(info: MediaInfo, rs: seq<Rule>)
    ensures forall r :: r in Filter(info, rs) <==> r in rs && Fires(info, r)
    ensures |Filter(info, rs)| <= |rs|
    decreases |rs|
  {
    if rs != [] {
      var p := rs[..|rs| - 1];
      FilterMembers(info, p);
      assert rs == p + [rs[|rs| - 1]];
    }
  }

  /** Pushing the issue of slot `r` exactly when it fires extends the specified list by that slot. */
  lemma PushStep(info: MediaInfo, fmt: NumberText, rs: seq<Rule>, r: Rule)
    ensures IssuesOf(info, fmt, Filter(info, rs + [r]))
      == IssuesOf(info, fmt, Filter(info, rs)) + (if Fires(info, r) then [IssueFor(info, fmt, r)] else [])
  {
    FilterSnoc(info, rs, r);
    if Fires(info, r) {
      IssuesOfSnoc(info, fmt, Filter(info, rs), r);
    } else {
      assert Filter(info, rs) + [] == Filter(info, rs);
    }
  }

  lemma RulesSnoc(n: nat)
    ensures DurationRules(n + 1) == DurationRules(n) + [DurationMismatch(n)]
    ensures LangRules(n + 1) == LangRules(n) + [MissingLang(n)]
  {
  }

  /** The mismatch check of one audio track, in the terms the loop computes it. */
  lemma DurationStep(info: MediaInfo, fmt: NumberText, i: nat)
    requires info.video.Some? && i < |info.audio|
    ensures Fires(info, DurationMismatch(i))
      <==> ExceedsHalf(Abs(Sub(TrackDuration(info.video.value), TrackDuration(info.audio[i]))))
    ensures IssueFor(info, fmt, DurationMismatch(i))
      == DurationIssue(i, TrackDuration(info.video.value), TrackDuration(info.audio[i]),
           Abs(Sub(TrackDuration(info.video.value), TrackDuration(info.audio[i]))), fmt)
  {
    var v, a := VideoTrack(info), AudioTrack(info, i);
    assert v == info.video.value;
    assert a == info.audio[i];
    assert IssueFor(info, fmt, DurationMismatch(i))
      == DurationIssue(i, TrackDuration(v), TrackDuration(a), Abs(Sub(TrackDuration(v), TrackDuration(a))), fmt);
  }

  /** The language check of one audio track, in the terms the loop computes it. */
  lemma LangStep(info: MediaInfo, fmt: NumberText, i: nat)
    requires i < |info.audio|
    ensures Fires(info, MissingLang(i)) <==> IsFalsy(Lookup(info.audio[i], "language"))
    ensures IssueFor(info, fmt, MissingLang(i)) == LangIssue(i)
  {
  }

  /** One turn of the language loop keeps the pushed issues equal to the specified ones. */
  lemma LangPush(info: MediaInfo, fmt: NumberText, index: nat, issues0: seq<QCIssue>, issues: seq<QCIssue>)
    requires index < |info.audio|
    requires issues == issues0 + IssuesOf(info, fmt, Filter(info, LangRules(index)))
    ensures (if IsFalsy(Lookup(info.audio[index], "language")) then issues + [LangIssue(index)] else issues)
      == issues0 + IssuesOf(info, fmt, Filter(info, LangRules(index + 1)))
  {
    LangStep(info, fmt, index);
    PushStep(info, fmt, LangRules(index), MissingLang(index));
    RulesSnoc(index);
  }

  /** One turn of the mismatch loop keeps the pushed issues equal to the specified ones. */
  lemma DurationPush(info: MediaInfo, fmt: NumberText, index: nat, issues0: seq<QCIssue>, issues: seq<QCIssue>,
                     videoDuration: Double, audioDuration: Double, diff: Double)
    requires info.video.Some? && index < |info.audio|
    requires videoDuration == TrackDuration(info.video.value)
    requires audioDuration == TrackDuration(info.audio[index])
    requires diff == Abs(Sub(videoDuration, audioDuration))
    requires issues == issues0 + IssuesOf(info, fmt, Filter(info, DurationRules(index)))
    ensures (if ExceedsHalf(diff) then issues + [DurationIssue(index, videoDuration, audioDuration, diff, fmt)] else issues)
      == issues0 + IssuesOf(info, fmt, Filter(info, DurationRules(index + 1)))
  {
    DurationStep(info, fmt, index);
    PushStep(info, fmt, DurationRules(index), DurationMismatch(index));
    RulesSnoc(index);
  }

  /** The three single rules, one push at a time. */
  lemma SingleRulesInOrder(info: MediaInfo, fmt: NumberText)
    ensures Filter(info, []) == [] && IssuesOf(info, fmt, []) == []
    ensures [] + [Vfr] == [Vfr] && [Vfr] + [MissingAudio] == [Vfr, MissingAudio]
    ensures [Vfr, MissingAudio] + [MissingVideo] == SingleRules
  {
  }

  /** The QC pass: the single rules, then the per-track rules, in the order analyzeQC runs them. */
  method AnalyzeQC(info: MediaInfo, fmt: NumberText) returns (issues: seq<QCIssue>)
    ensures issues == QcIssues(info, fmt)
  {
    issues := [];
    var video, audio := info.video, info.audio;

    // Rule 1: variable frame rate
    if video.Some? && Lookup(video.value, "frame_rate_mode") == Str("VFR") {
      issues := issues + [VfrIssue(Lookup(video.value, "frame_rate"))];
    }
    PushStep(info, fmt, [], Vfr);

    // Rule 2: video without audio
    if video.Some? && |audio| == 0 {
      issues := issues + [MissingAudioIssue()];
    }
    PushStep(info, fmt, [Vfr], MissingAudio);

    // Rule 3: no video, and the format does not say audio
    if video.None? && !FormatSaysAudio(info.general) {
      issues := issues + [MissingVideoIssue()];
    }
    PushStep(info, fmt, [Vfr, MissingAudio], MissingVideo);
    SingleRulesInOrder(info, fmt);

    // Rules 4 and 5: one check per audio track each
    issues := CheckDurations(info, fmt, issues);
    issues := CheckLanguages(info, fmt, issues);

    FilterAppend(info, SingleRules, DurationRules(|audio|));
    FilterAppend(info, SingleRules + DurationRules(|audio|), LangRules(|audio|));
    IssuesOfAppend(info, fmt, Filter(info, SingleRules), Filter(info, DurationRules(|audio|)));
    IssuesOfAppend(info, fmt, Filter(info, SingleRules + DurationRules(|audio|)), Filter(info, LangRules(|audio|)));
  }

  /**
   * Rule 4: with a video track and some audio, compare the video duration with
   * each audio track's and push a mismatch issue where they differ by more than
   * half a second. Appends the issues of the duration slots that fire.
   */
  method CheckDurations(info: MediaInfo, fmt: NumberText, issues0: seq<QCIssue>) returns (issues: seq<QCIssue>)
    ensures issues == issues0 + IssuesOf(info, fmt, Filter(info, DurationRules(|info.audio|)))
  {
    issues := issues0;
    var video, audio := info.video, info.audio;
    if video.Some? && |audio| > 0 {
      var videoDuration := TrackDuration(video.value);
      for index := 0 to |audio|
        invariant issues == issues0 + IssuesOf(info, fmt, Filter(info, DurationRules(index)))
      {
        var audioDuration := TrackDuration(audio[index]);
        var diff := Abs(Sub(videoDuration, audioDuration));
        DurationPush(info, fmt, index, issues0, issues, videoDuration, audioDuration, diff);
        if ExceedsHalf(diff) {
          issues := issues + [DurationIssue(index, videoDuration, audioDuration, diff, fmt)];
        }
      }
    } else {
      FilterNoneFire(info, DurationRules(|audio|));
    }
  }

  /** Rule 5: push a missing-language issue for each audio track whose language tag is falsy. */
  method CheckLanguages(info: MediaInfo, fmt: NumberText, issues0: seq<QCIssue>) returns (issues: seq<QCIssue>)
    ensures issues == issues0 + IssuesOf(info, fmt, Filter(info, LangRules(|info.audio|)))
  {
    issues := issues0;
    var audio := info.audio;
    for index := 0 to |audio|
      invariant issues == issues0 + IssuesOf(info, fmt, Filter(info, LangRules(index)))
    {
      LangPush(info, fmt, index, issues0, issues);
      if IsFalsy(Lookup(audio[index], "language")) {
        issues := issues + [LangIssue(index)];
      }
    }
  }

  // ---------------------------------------------------------------------
  // Properties of the issue list

  function IssueIds(issues: seq<QCIssue>): (ids: seq<string>)
    ensures |ids| == |issues|
  {
    seq(|issues|, k requires 0 <= k < |issues| => issues[k].id)
  }

  /** Position of a slot in the rule order for `n` audio tracks. */
  function Rank(r: Rule, n: nat): nat {
    match r
    case Vfr => 0
    case MissingAudio => 1
    case MissingVideo => 2
    case DurationMismatch(i) => 3 + i
    case MissingLang(i) => 3 + n + i
  }

  predicate Ascending(rs: seq<Rule>, n: nat) {
    forall j, k :: 0 <= j < k < |rs| ==> Rank(rs[j], n) < Rank(rs[k], n)
  }

  /** The slot at each position of the rule order. */
  lemma RuleOrderAt(n: nat, k: nat)
    requires k < 3 + 2 * n
    ensures |RuleOrder(n)| == 3 + 2 * n
    ensures RuleOrder(n)[k] == if k < 3 then SingleRules[k]
      else if k < 3 + n then DurationMismatch(k - 3)
      else MissingLang(k - 3 - n)
  {
    var rs := RuleOrder(n);
    if k < 3 {
      assert rs[k] == SingleRules[k];
    } else if k < 3 + n {
      assert rs[k] == DurationRules(n)[k - 3];
    } else {
      assert rs[k] == LangRules(n)[k - 3 - n];
    }
  }

  /** The slot at position k of the rule order has rank k. */
  lemma RuleOrderRanked(n: nat)
    ensures |RuleOrder(n)| == 3 + 2 * n
    ensures forall k :: 0 <= k < 3 + 2 * n ==> Rank(RuleOrder(n)[k], n) == k
  {
    forall k | 0 <= k < 3 + 2 * n
      ensures Rank(RuleOrder(n)[k], n) == k
    {
      RuleOrderAt(n, k);
    }
  }

  /** A slot occurs in the rule order exactly when its track index is in range. */
  lemma InRuleOrder(r: Rule, n: nat)
    ensures r in RuleOrder(n) <==> (r.DurationMismatch? || r.MissingLang? ==> r.index < n)
  {
    var rs := RuleOrder(n);
    RuleOrderRanked(n);
    if r in rs {
      var k :| 0 <= k < |rs| && rs[k] == r;
      RuleOrderAt(n, k);
    }
    if r.DurationMismatch? || r.MissingLang? ==> r.index < n {
      RuleOrderAt(n, Rank(r, n));
    }
  }

  /** Keeping some slots of an ascending list keeps it ascending. */
  lemma {:induction false} FilterAscending(info: MediaInfo, rs: seq<Rule>, n: nat)
    requires Ascending(rs, n)
    ensures Ascending(Filter(info, rs), n)
    decreases |rs|
  {
    if rs != [] {
      var p, last := rs[..|rs| - 1], rs[|rs| - 1];
      FilterAscending(info, p, n);
      FilterMembers(info, p);
      forall r | r in Filter(info, p)
        ensures Rank(r, n) < Rank(last, n)
      {
        var j :| 0 <= j < |p| && p[j] == r;
        assert rs[j] == r;
      }
    }
  }

  lemma {:induction false} IssuesOfMap(info: MediaInfo, fmt: NumberText, rs: seq<Rule>)
    ensures |IssuesOf(info, fmt, rs)| == |rs|
    ensures forall k :: 0 <= k < |rs| ==> IssuesOf(info, fmt, rs)[k] == IssueFor(info, fmt, rs[k])
    decreases |rs|
  {
    if rs != [] {
      IssuesOfMap(info, fmt, rs[..|rs| - 1]);
    }
  }

  /**
   * The issues are the issues of the firing slots, one each, in rule order:
   * VFR, missing audio, missing video, then the duration mismatches by
   * ascending track index, then the missing languages by ascending index.
   */
  lemma IssuesInRuleOrder(info: MediaInfo, fmt: NumberText)
    ensures |QcIssues(info, fmt)| == |FiredRules(info)|
    ensures forall k :: 0 <= k < |FiredRules(info)| ==>
      Fires(info, FiredRules(info)[k]) && QcIssues(info, fmt)[k] == IssueFor(info, fmt, FiredRules(info)[k])
    ensures forall j, k :: 0 <= j < k < |FiredRules(info)| ==>
      Rank(FiredRules(info)[j], |info.audio|) < Rank(FiredRules(info)[k], |info.audio|)
  {
    var n := |info.audio|;
    IssuesOfMap(info, fmt, FiredRules(info));
    RuleOrderRanked(n);
    FilterAscending(info, RuleOrder(n), n);
    FilterMembers(info, RuleOrder(n));
    forall k | 0 <= k < |FiredRules(info)|
      ensures Fires(info, FiredRules(info)[k])
    {
      assert FiredRules(info)[k] in FiredRules(info);
    }
  }

  /** Ids within one run are pairwise distinct; no issue is a Pass; only the two missing-stream rules are errors. */
  lemma IssueIdsDistinct(info: MediaInfo, fmt: NumberText)
    ensures forall j, k :: 0 <= j < k < |QcIssues(info, fmt)| ==> QcIssues(info, fmt)[j].id != QcIssues(info, fmt)[k].id
    ensures forall k :: 0 <= k < |QcIssues(info, fmt)| ==>
      QcIssues(info, fmt)[k].severity
        == (if QcIssues(info, fmt)[k].id in ["missing_audio", "missing_video"] then Error else Warning)
  {
    var issues, fired := QcIssues(info, fmt), FiredRules(info);
    IssuesInRuleOrder(info, fmt);
    forall j, k | 0 <= j < k < |issues|
      ensures issues[j].id != issues[k].id
    {
      IssueForIdentity(info, fmt, fired[j]);
      IssueForIdentity(info, fmt, fired[k]);
      RuleIdInjective(fired[j], fired[k]);
    }
    forall k | 0 <= k < |issues|
      ensures issues[k].severity == (if issues[k].id in ["missing_audio", "missing_video"] then Error else Warning)
    {
      IssueForIdentity(info, fmt, fired[k]);
      RuleOfIdRuleId(fired[k]);
    }
  }

  /** The ids of the issues are the ids of the firing slots, in order. */
  lemma IssueIdsOfFired(info: MediaInfo, fmt: NumberText)
    ensures IssueIds(QcIssues(info, fmt))
      == seq(|FiredRules(info)|, k requires 0 <= k < |FiredRules(info)| => RuleId(FiredRules(info)[k]))
  {
    IssuesInRuleOrder(info, fmt);
    forall k | 0 <= k < |FiredRules(info)|
      ensures QcIssues(info, fmt)[k].id == RuleId(FiredRules(info)[k])
    {
      IssueForIdentity(info, fmt, FiredRules(info)[k]);
    }
  }

  /** An id is issued exactly when its slot fires. */
  lemma IssuedOnlyIfFires(info: MediaInfo, fmt: NumberText, r: Rule)
    requires RuleId(r) in IssueIds(QcIssues(info, fmt))
    ensures Fires(info, r)
  {
    var issues, fired := QcIssues(info, fmt), FiredRules(info);
    IssuesInRuleOrder(info, fmt);
    FilterMembers(info, RuleOrder(|info.audio|));
    var k :| 0 <= k < |issues| && IssueIds(issues)[k] == RuleId(r);
    IssueForIdentity(info, fmt, fired[k]);
    RuleIdInjective(r, fired[k]);
  }

  lemma IssuedIfFires(info: MediaInfo, fmt: NumberText, r: Rule)
    requires Fires(info, r)
    ensures RuleId(r) in IssueIds(QcIssues(info, fmt))
  {
    var issues, fired := QcIssues(info, fmt), FiredRules(info);
    IssuesInRuleOrder(info, fmt);
    FilterMembers(info, RuleOrder(|info.audio|));
    InRuleOrder(r, |info.audio|);
    var k :| 0 <= k < |fired| && fired[k] == r;
    IssueForIdentity(info, fmt, r);
    assert IssueIds(issues)[k] == RuleId(r);
  }

  lemma IssuedIffFires(info: MediaInfo, fmt: NumberText, r: Rule)
    ensures RuleId(r) in IssueIds(QcIssues(info, fmt)) <==> Fires(info, r)
  {
    if RuleId(r) in IssueIds(QcIssues(info, fmt)) {
      IssuedOnlyIfFires(info, fmt, r);
    } else if Fires(info, r) {
      IssuedIfFires(info, fmt, r);
    }
  }

  /** The condition of each rule, in the terms of the metadata. */
  lemma RuleConditions(info: MediaInfo, fmt: NumberText)
    ensures var ids := IssueIds(QcIssues(info, fmt));
      && ("vfr_detected" in ids <==> info.video.Some? && Lookup(info.video.value, "frame_rate_mode") == Str("VFR"))
      && ("missing_audio" in ids <==> info.video.Some? && |info.audio| == 0)
      && ("missing_video" in ids <==> info.video.None? && !FormatSaysAudio(info.general))
  {
    IssuedIffFires(info, fmt, Vfr);
    IssuedIffFires(info, fmt, MissingAudio);
    IssuedIffFires(info, fmt, MissingVideo);
  }

  /** The per-track conditions: track i raises `duration_mismatch_i` and `missing_lang_i` exactly when. */
  lemma TrackConditions(info: MediaInfo, fmt: NumberText, i: nat)
    ensures var ids := IssueIds(QcIssues(info, fmt));
      && ("duration_mismatch_" + NatToString(i) in ids <==>
            info.video.Some? && i < |info.audio|
            && ExceedsHalf(Abs(Sub(TrackDuration(info.video.value), TrackDuration(info.audio[i])))))
      && ("missing_lang_" + NatToString(i) in ids <==> i < |info.audio| && IsFalsy(Lookup(info.audio[i], "language")))
  {
    IssuedIffFires(info, fmt, DurationMismatch(i));
    IssuedIffFires(info, fmt, MissingLang(i));
  }

  /** An absent or empty duration reads as zero seconds. */
  lemma AbsentDurationIsZero(t: Track)
    requires Lookup(t, "duration") == Undefined || Lookup(t, "duration") == Str("")
    ensures TrackDuration(t) == Finite(0.0)
  {
    ParseWhole("0", "");
    assert "0" + "" == "0";
  }

  /** A duration that does not start with a number never raises a mismatch, whatever the other duration. */
  lemma UnreadableDurationNeverMismatches(info: MediaInfo, i: nat)
    requires info.video.Some? && i < |info.audio|
    requires TrackDuration(info.video.value) == NaN || TrackDuration(info.audio[i]) == NaN
    ensures !Fires(info, DurationMismatch(i))
  {
  }

  /** Missing audio excludes missing video and every mismatch; at most 2 + 2n issues for n audio tracks. */
  lemma RuleExclusions(info: MediaInfo, fmt: NumberText)
    ensures var ids := IssueIds(QcIssues(info, fmt));
      && !("missing_audio" in ids && "missing_video" in ids)
      && ("missing_audio" in ids ==> forall i: nat :: "duration_mismatch_" + NatToString(i) !in ids)
    ensures |QcIssues(info, fmt)| <= 2 + 2 * |info.audio|
  {
    var n := |info.audio|;
    RuleConditions(info, fmt);
    forall i: nat
      ensures "missing_audio" in IssueIds(QcIssues(info, fmt)) ==>
        "duration_mismatch_" + NatToString(i) !in IssueIds(QcIssues(info, fmt))
    {
      TrackConditions(info, fmt, i);
    }
    IssuesInRuleOrder(info, fmt);
    FilterAppend(info, SingleRules, DurationRules(n));
    FilterAppend(info, SingleRules + DurationRules(n), LangRules(n));
    FilterMembers(info, DurationRules(n));
    FilterMembers(info, LangRules(n));
    SinglesAtMostTwo(info);
  }

  function Kept(info: MediaInfo, r: Rule): seq<Rule> {
    if Fires(info, r) then [r] else []
  }

  /** The single rules that fire, slot by slot. */
  lemma SinglesFiltered(info: MediaInfo)
    ensures Filter(info, SingleRules) == Kept(info, Vfr) + Kept(info, MissingAudio) + Kept(info, MissingVideo)
  {
    FilterSnoc(info, [], Vfr);
    FilterSnoc(info, [Vfr], MissingAudio);
    FilterSnoc(info, [Vfr, MissingAudio], MissingVideo);
    assert [Vfr, MissingAudio] + [MissingVideo] == SingleRules;
    assert [Vfr] + [MissingAudio] == [Vfr, MissingAudio];
    assert [] + [Vfr] == [Vfr];
  }

  lemma SinglesAtMostTwo(info: MediaInfo)
    ensures |Filter(info, SingleRules)| <= 2
  {
    SinglesFiltered(info);
  }

  // ---------------------------------------------------------------------
  // Two of the mock parser's records (services/mediaParser.ts), trimmed to
  // the attributes the rules read

  /** `mismatchedDurationVideo`: 125.0s of video against 120.5s of tagged audio. */
  function MismatchRecord(): MediaInfo {
    MediaInfo(
      [("format", Str("MPEG-4")), ("duration", Str("125.0s"))],
      Some([("frame_rate", Num("29.97")), ("frame_rate_mode", Str("CFR")), ("duration", Str("125.0s"))]),
      [[("language", Str("en")), ("duration", Str("120.5s"))]],
      [])
  }

  /** `audioOnly`: an MPEG Audio file with one untagged audio track and no video. */
  function AudioOnlyRecord(): MediaInfo {
    MediaInfo(
      [("format", Str("MPEG Audio")), ("duration", Str("300.0s"))],
      None,
      [[("codec", Str("MP3")), ("duration", Str("300.0s"))]],
      [])
  }

  /** The five slots for one audio track, split where the fixtures need it. */
  lemma OneTrackOrder()
    ensures RuleOrder(1) == SingleRules + [DurationMismatch(0)] + [MissingLang(0)]
  {
  }

  /** A duration written as `whole.frac` followed by a unit reads as that decimal. */
  lemma ReadsDuration(t: Track, whole: string, frac: string, rest: string)
    requires Lookup(t, "duration") == Str(whole + "." + frac + rest)
    requires whole != [] && forall k :: 0 <= k < |whole| ==> IsDigit(whole[k])
    requires forall k :: 0 <= k < |frac| ==> IsDigit(frac[k])
    requires rest == [] || (!IsDigit(rest[0]) && rest[0] != 'e' && rest[0] != 'E')
    ensures TrackDuration(t) == Finite(DecimalFraction(whole, frac))
  {
    ParseDecimal(whole, frac, rest);
  }

  lemma MismatchDecimals()
    ensures DecimalFraction("125", "0") == 125.0
    ensures DecimalFraction("120", "5") == 120.5
  {
    assert NatToString(125) == "125" && NatToString(120) == "120";
    assert NatToString(0) == "0" && NatToString(5) == "5";
    DecimalValueOfNatToString(125);
    DecimalValueOfNatToString(120);
    DecimalValueOfNatToString(0);
    DecimalValueOfNatToString(5);
    assert Pow10(1) == 10;
  }

  lemma MismatchVideoDuration()
    ensures TrackDuration(MismatchRecord().video.value) == Finite(DecimalFraction("125", "0"))
  {
    assert "125" + "." + "0" + "s" == "125.0s";
    ReadsDuration(MismatchRecord().video.value, "125", "0", "s");
  }

  lemma MismatchAudioDuration()
    ensures TrackDuration(MismatchRecord().audio[0]) == Finite(DecimalFraction("120", "5"))
  {
    assert "120" + "." + "5" + "s" == "120.5s";
    ReadsDuration(MismatchRecord().audio[0], "120", "5", "s");
  }

  /** With one audio track, the five slots fire or not one by one. */
  lemma OneTrackFired(info: MediaInfo)
    requires |info.audio| == 1
    ensures FiredRules(info)
      == Kept(info, Vfr) + Kept(info, MissingAudio) + Kept(info, MissingVideo)
         + Kept(info, DurationMismatch(0)) + Kept(info, MissingLang(0))
  {
    SinglesFiltered(info);
    OneTrackOrder();
    FilterSnoc(info, SingleRules, DurationMismatch(0));
    FilterSnoc(info, SingleRules + [DurationMismatch(0)], MissingLang(0));
  }

  lemma MismatchDurationFires()
    ensures Fires(MismatchRecord(), DurationMismatch(0))
  {
    MismatchVideoDuration();
    MismatchAudioDuration();
    MismatchDecimals();
  }

  lemma MismatchSinglesQuiet()
    ensures !Fires(MismatchRecord(), Vfr) && !Fires(MismatchRecord(), MissingAudio)
    ensures !Fires(MismatchRecord(), MissingVideo)
  {
    assert Lookup(MismatchRecord().video.value, "frame_rate_mode") == Str("CFR");
  }

  lemma MismatchRecordFired()
    ensures FiredRules(MismatchRecord()) == [DurationMismatch(0)]
  {
    var info := MismatchRecord();
    MismatchSinglesQuiet();
    MismatchDurationFires();
    assert Lookup(info.audio[0], "language") == Str("en");
    OneTrackFired(info);
  }

  /** The mismatch record raises exactly the duration warning of its first audio track. */
  lemma MismatchRecordIssues(fmt: NumberText)
    ensures IssueIds(QcIssues(MismatchRecord(), fmt)) == ["duration_mismatch_0"]
  {
    var info := MismatchRecord();
    MismatchRecordFired();
    IssueIdsOfFired(info, fmt);
    assert RuleId(DurationMismatch(0)) == "duration_mismatch_0" by { assert NatToString(0) == "0"; }
    var ids := IssueIds(QcIssues(info, fmt));
    assert |ids| == 1 && ids[0] == RuleId(DurationMismatch(0));
  }

  lemma AudioOnlyFormat()
    ensures FormatSaysAudio(AudioOnlyRecord().general)
  {
    assert Lookup(AudioOnlyRecord().general, "format") == Str("MPEG Audio");
    var lower := ToLower("MPEG Audio");
    assert lower == "mpeg audio";
    assert StartsWithAt(lower, 5, "audio");
    IncludesIff(lower, "audio");
  }

  lemma AudioOnlyRecordFired()
    ensures FiredRules(AudioOnlyRecord()) == [MissingLang(0)]
  {
    var info := AudioOnlyRecord();
    AudioOnlyFormat();
    assert Lookup(info.audio[0], "language") == Undefined;
    assert Kept(info, Vfr) == [] && Kept(info, MissingAudio) == [] && Kept(info, MissingVideo) == [];
    assert Kept(info, DurationMismatch(0)) == [] && Kept(info, MissingLang(0)) == [MissingLang(0)];
    OneTrackFired(info);
  }

  /** The audio-only record needs no video and raises only the missing language of its track. */
  lemma AudioOnlyRecordIssues(fmt: NumberText)
    ensures IssueIds(QcIssues(AudioOnlyRecord(), fmt)) == ["missing_lang_0"]
  {
    var info := AudioOnlyRecord();
    AudioOnlyRecordFired();
    IssueIdsOfFired(info, fmt);
    assert RuleId(MissingLang(0)) == "missing_lang_0" by { assert NatToString(0) == "0"; }
    var ids := IssueIds(QcIssues(info, fmt));
    assert |ids| == 1 && ids[0] == RuleId(MissingLang(0));
  }
}
