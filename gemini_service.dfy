/**
 * The deterministic part of services/geminiService.ts: which of its fixed
 * texts `generateQCSummary` returns, and the trimming of the model's reply.
 * The prompt and the remote call are not modelled: the call's outcome is a
 * parameter.
 */
module GeminiService {
  import opened Types

  /**
   * `WhiteSpace` and `LineTerminator` of ECMAScript, the characters
   * `String.prototype.trim` removes: tab, vertical tab, form feed, space,
   * no-break space, the byte order mark, the other space separators (Zs), and
   * line feed, carriage return, line and paragraph separators.
   */
  predicate IsJsSpace(c: char) {
    c == '\t' || c == '\n' || c == '\U{B}' || c == '\U{C}' || c == '\r' || c == ' '
    || c == '\U{A0}' || c == '\U{1680}' || ('\U{2000}' <= c <= '\U{200A}')
    || c == '\U{2028}' || c == '\U{2029}' || c == '\U{202F}' || c == '\U{205F}'
    || c == '\U{3000}' || c == '\U{FEFF}'
  }

  /** Drops the leading white space: what is left is a suffix that starts with a non-space. */
  function TrimStart(s: string): (r: string)
    ensures |r| <= |s| && r == s[|s| - |r|..]
    ensures forall k :: 0 <= k < |s| - |r| ==> IsJsSpace(s[k])
    ensures r != [] ==> !IsJsSpace(r[0])
  {
    if s != [] && IsJsSpace(s[0]) then TrimStart(s[1..]) else s
  }

  /** Drops the trailing white space: what is left is a prefix that ends with a non-space. */
  function TrimEnd(s: string): (r: string)
    ensures |r| <= |s| && r == s[..|r|]
    ensures forall k :: |r| <= k < |s| ==> IsJsSpace(s[k])
    ensures r != [] ==> !IsJsSpace(r[|r| - 1])
  {
    if s != [] && IsJsSpace(s[|s| - 1]) then TrimEnd(s[..|s| - 1]) else s
  }

  /** `s.trim()` */
  function Trim(s: string): string {
    TrimEnd(TrimStart(s))
  }

  /** Where the trimmed text lies in the original. */
  lemma TrimBounds(s: string) returns (i: nat, j: nat)
    ensures i <= j <= |s| && Trim(s) == s[i..j]
    ensures forall k :: 0 <= k < i ==> IsJsSpace(s[k])
    ensures forall k :: j <= k < |s| ==> IsJsSpace(s[k])
  {
    var t := TrimStart(s);
    var e := TrimEnd(t);
    i := |s| - |t|;
    j := i + |e|;
    assert t == s[i..] && e == t[..|e|];
    forall k | j <= k < |s|
      ensures IsJsSpace(s[k])
    {
      assert s[k] == t[k - i];
    }
  }

  /**
   * The trimmed text is a slice of the original with only white space cut
   * away on either side, and it neither starts nor ends with white space.
   */
  lemma TrimSpec(s: string)
    ensures exists i, j ::
      && 0 <= i <= j <= |s| && Trim(s) == s[i..j]
      && (forall k :: 0 <= k < i ==> IsJsSpace(s[k]))
      && (forall k :: j <= k < |s| ==> IsJsSpace(s[k]))
    ensures Trim(s) != [] ==> !IsJsSpace(Trim(s)[0]) && !IsJsSpace(Trim(s)[|Trim(s)| - 1])
  {
    var i, j := TrimBounds(s);
    var t := TrimStart(s);
    assert TrimEnd(t) != [] ==> TrimEnd(t)[0] == t[0];
  }

  /** Trimming twice changes nothing more. */
  lemma TrimIdempotent(s: string)
    ensures Trim(Trim(s)) == Trim(s)
  {
    var r := Trim(s);
    if r != [] {
      assert TrimStart(r) == r;
      assert TrimEnd(r) == r;
    }
  }

  /** A text of white space only loses all of it. */
  lemma {:induction false} TrimStartAllSpace(s: string)
    requires forall k :: 0 <= k < |s| ==> IsJsSpace(s[k])
    ensures TrimStart(s) == ""
  {
    if s != [] {
      TrimStartAllSpace(s[1..]);
    }
  }

  /** A reply trims to nothing iff it is all white space. */
  lemma TrimEmptyIff(s: string)
    ensures Trim(s) == "" <==> forall k :: 0 <= k < |s| ==> IsJsSpace(s[k])
  {
    var t := TrimStart(s);
    if forall k :: 0 <= k < |s| ==> IsJsSpace(s[k]) {
      TrimStartAllSpace(s);
    } else {
      assert t != [];
    }
  }

  const NoKeyText := "Gemini API key not configured. Summary not available."
  const AllPassedText := "This file passed all quality control checks successfully."
  const ApiErrorText := "Could not generate AI summary due to an API error."

  /**
   * `generateQCSummary(issues)`. `apiKey` is `process.env.API_KEY` (None when
   * unset); `reply` is the model's text, or None when the call throws, which
   * includes a response without text, whose `trim` throws inside the same `try`.
   */
  function GenerateQcSummary(apiKey: Option<string>, issues: seq<QCIssue>, reply: Option<string>): string {
    if apiKey.None? || apiKey.value == "" then NoKeyText
    else if |issues| == 0 then AllPassedText
    else if reply.None? then ApiErrorText
    else Trim(reply.value)
  }

  /**
   * The missing key is checked first, so it wins even for an issue-free file;
   * with a key, an issue-free file gets the fixed congratulation whatever the
   * model would say; otherwise the trimmed reply, or the fixed API-error text.
   */
  lemma GenerateQcSummaryCases(apiKey: Option<string>, issues: seq<QCIssue>, reply: Option<string>)
    ensures apiKey.None? || apiKey == Some("") ==> GenerateQcSummary(apiKey, issues, reply) == NoKeyText
    ensures apiKey.Some? && apiKey.value != "" && issues == [] ==> GenerateQcSummary(apiKey, issues, reply) == AllPassedText
    ensures apiKey.Some? && apiKey.value != "" && issues != [] && reply.None? ==>
      GenerateQcSummary(apiKey, issues, reply) == ApiErrorText
    ensures apiKey.Some? && apiKey.value != "" && issues != [] && reply.Some? ==>
      GenerateQcSummary(apiKey, issues, reply) == Trim(reply.value)
  {
  }

  /**
   * The summary is empty, so that the summary panel shows its loading text,
   * exactly when the model was asked and replied with nothing but white space.
   */
  lemma GenerateQcSummaryEmptyIff(apiKey: Option<string>, issues: seq<QCIssue>, reply: Option<string>)
    ensures GenerateQcSummary(apiKey, issues, reply) == "" <==>
      && apiKey.Some? && apiKey.value != "" && issues != [] && reply.Some?
      && forall k :: 0 <= k < |reply.value| ==> IsJsSpace(reply.value[k])
  {
    if reply.Some? {
      TrimEmptyIff(reply.value);
    }
  }
}
