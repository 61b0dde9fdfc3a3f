/**
 * The ECMAScript string built-ins that the core relies on, on strings seen as
 * sequences of characters: decimal rendering of indices (`${i + 1}`),
 * `split`/`join` on a one-character separator, global one-character
 * `replace`, ASCII case mapping and `includes`.
 */
module JsText {

  predicate IsDigit(c: char) {
    '0' <= c <= '9'
  }

  function DigitChar(d: nat): (c: char)
    requires d < 10
    ensures IsDigit(c)
  {
    (48 + d) as char
  }

  function DigitValue(c: char): nat {
    if IsDigit(c) then c as int - 48 else 0
  }

  /** Decimal rendering of a non-negative integer, as `${n}` produces it. */
  function NatToString(n: nat): (s: string)
    ensures |s| > 0
    ensures forall i :: 0 <= i < |s| ==> IsDigit(s[i])
  {
    if n < 10 then [DigitChar(n)] else NatToString(n / 10) + [DigitChar(n % 10)]
  }

  /** Value of a string of decimal digits (what `parseInt(s, 10)` gives for such a string). */
  function DecimalValue(s: string): nat {
    if s == [] then 0 else DecimalValue(s[..|s| - 1]) * 10 + DigitValue(s[|s| - 1])
  }

  /** Reading back a rendered index gives the index. */
  lemma {:induction false} DecimalValueOfNatToString(n: nat)
    ensures DecimalValue(NatToString(n)) == n
  {
    if n >= 10 {
      var s := NatToString(n);
      assert s[..|s| - 1] == NatToString(n / 10);
      DecimalValueOfNatToString(n / 10);
    }
  }

  /** Distinct indices render to distinct strings. */
  lemma NatToStringInjective(m: nat, n: nat)
    ensures NatToString(m) == NatToString(n) ==> m == n
  {
    DecimalValueOfNatToString(m);
    DecimalValueOfNatToString(n);
  }

  /** `s.split(sep)` for a one-character separator: never empty, pieces never hold `sep`. */
  function Split(s: string, sep: char): (parts: seq<string>)
    ensures |parts| > 0
    ensures forall i :: 0 <= i < |parts| ==> sep !in parts[i]
    ensures |parts| == 1 <==> sep !in s
  {
    if s == [] then [""]
    else
      var rest := Split(s[1..], sep);
      if s[0] == sep then [""] + rest
      else [[s[0]] + rest[0]] + rest[1..]
  }

  /** `parts.join(sep)`; the join of no parts is the empty string. */
  function Join(parts: seq<string>, sep: char): string {
    if parts == [] then ""
    else if |parts| == 1 then parts[0]
    else parts[0] + [sep] + Join(parts[1..], sep)
  }

  lemma JoinConsHead(c: char, x: string, rest: seq<string>, sep: char)
    ensures Join([[c] + x] + rest, sep) == [c] + Join([x] + rest, sep)
  {
    if rest != [] {
      assert ([[c] + x] + rest)[1..] == rest;
      assert ([x] + rest)[1..] == rest;
    }
  }

  /** Splitting and joining again on the same separator gives back the string. */
  lemma {:induction false} JoinSplit(s: string, sep: char)
    ensures Join(Split(s, sep), sep) == s
  {
    if s != [] {
      JoinSplit(s[1..], sep);
      var rest := Split(s[1..], sep);
      if s[0] == sep {
        assert ([""] + rest)[1..] == rest;
      } else {
        JoinConsHead(s[0], rest[0], rest[1..], sep);
        assert [rest[0]] + rest[1..] == rest;
      }
    }
  }

  /** Every piece but the last, rejoined: `s.split(sep).slice(0, -1).join(sep)`. */
  function DropLastSegment(s: string, sep: char): string {
    var parts := Split(s, sep);
    Join(parts[..|parts| - 1], sep)
  }

  function LastSegment(s: string, sep: char): string {
    var parts := Split(s, sep);
    parts[|parts| - 1]
  }

  /** While a separator remains further on, the first character belongs to the kept prefix. */
  lemma DropLastSegmentStep(s: string, sep: char)
    requires s != [] && sep in s[1..]
    ensures DropLastSegment(s, sep) == [s[0]] + DropLastSegment(s[1..], sep)
    ensures LastSegment(s, sep) == LastSegment(s[1..], sep)
  {
    var rest := Split(s[1..], sep);
    var parts := Split(s, sep);
    assert |rest| > 1;
    if s[0] == sep {
      assert parts == [""] + rest;
      assert parts[..|parts| - 1] == [""] + rest[..|rest| - 1];
      assert ([""] + rest[..|rest| - 1])[1..] == rest[..|rest| - 1];
    } else {
      assert parts == [[s[0]] + rest[0]] + rest[1..];
      assert parts[..|parts| - 1] == [[s[0]] + rest[0]] + rest[1..|rest| - 1];
      JoinConsHead(s[0], rest[0], rest[1..|rest| - 1], sep);
      assert [rest[0]] + rest[1..|rest| - 1] == rest[..|rest| - 1];
    }
  }

  /**
   * Dropping the last segment leaves exactly what precedes the last separator,
   * and the empty string when there is no separator at all.
   */
  lemma {:induction false} DropLastSegmentSpec(s: string, sep: char)
    ensures sep !in s ==> DropLastSegment(s, sep) == ""
    ensures sep in s ==>
      sep !in LastSegment(s, sep) && s == DropLastSegment(s, sep) + [sep] + LastSegment(s, sep)
  {
    if s != [] {
      if sep in s[1..] {
        DropLastSegmentSpec(s[1..], sep);
        DropLastSegmentStep(s, sep);
        assert s == [s[0]] + s[1..];
      } else if s[0] == sep {
        var rest := Split(s[1..], sep);
        assert Split(s, sep) == [""] + rest;
        JoinSplit(s[1..], sep);
        assert s == [sep] + s[1..];
      }
    }
  }

  /** In `b + sep + l` with a separator-free `l`, no separator follows position |b|. */
  lemma NoSeparatorAfter(b: string, l: string, sep: char)
    requires sep !in l
    ensures forall k :: |b| < k < |b| + 1 + |l| ==> (b + [sep] + l)[k] != sep
  {
    forall k | |b| < k < |b| + 1 + |l|
      ensures (b + [sep] + l)[k] != sep
    {
      assert (b + [sep] + l)[k] == l[k - |b| - 1];
    }
  }

  /** The part before the last separator is determined by any split at a separator-free tail. */
  lemma LastSeparatorUnique(b1: string, l1: string, b2: string, l2: string, sep: char)
    requires sep !in l1 && sep !in l2
    requires b1 + [sep] + l1 == b2 + [sep] + l2
    ensures b1 == b2 && l1 == l2
  {
    var s := b1 + [sep] + l1;
    NoSeparatorAfter(b1, l1, sep);
    NoSeparatorAfter(b2, l2, sep);
    assert s[|b1|] == sep;
    assert s[|b2|] == sep;
    assert |b1| == |b2|;
    assert b1 == s[..|b1|];
    assert b2 == s[..|b2|];
    assert l1 == s[|b1| + 1..];
  }

  /**
   * Splitting `b + sep + tail` for a separator-free tail at its last separator
   * gives back `b` and `tail`.
   */
  lemma DropLastSegmentOf(b: string, tail: string, sep: char)
    requires sep !in tail
    ensures DropLastSegment(b + [sep] + tail, sep) == b
    ensures LastSegment(b + [sep] + tail, sep) == tail
  {
    var s := b + [sep] + tail;
    assert s[|b|] == sep;
    DropLastSegmentSpec(s, sep);
    LastSeparatorUnique(DropLastSegment(s, sep), LastSegment(s, sep), b, tail, sep);
  }

  /** `s.replace(/x/g, y)` for single characters x and y. */
  function ReplaceAll(s: string, from: char, to: char): (r: string)
    ensures |r| == |s|
    ensures forall i :: 0 <= i < |s| ==> r[i] == (if s[i] == from then to else s[i])
    ensures from != to ==> from !in r
  {
    seq(|s|, i requires 0 <= i < |s| => if s[i] == from then to else s[i])
  }

  /** `s.replace(/"/g, '""')`: every double quote doubled. */
  function DoubleQuotes(s: string): string {
    if s == [] then ""
    else (if s[0] == '"' then "\"\"" else [s[0]]) + DoubleQuotes(s[1..])
  }

  function LowerChar(c: char): char {
    if 'A' <= c <= 'Z' then (c as int + 32) as char else c
  }

  function UpperChar(c: char): char {
    if 'a' <= c <= 'z' then (c as int - 32) as char else c
  }

  /** `s.toLowerCase()`, for the ASCII letters. */
  function ToLower(s: string): (r: string)
    ensures |r| == |s|
  {
    seq(|s|, i requires 0 <= i < |s| => LowerChar(s[i]))
  }

  /** `s.toUpperCase()`, for the ASCII letters. */
  function ToUpper(s: string): (r: string)
    ensures |r| == |s|
  {
    seq(|s|, i requires 0 <= i < |s| => UpperChar(s[i]))
  }

  /** Upper-casing distributes over concatenation and leaves digits and spaces alone. */
  lemma ToUpperAppend(a: string, b: string)
    ensures ToUpper(a + b) == ToUpper(a) + ToUpper(b)
  {
  }

  lemma ToUpperDigits(s: string)
    requires forall i :: 0 <= i < |s| ==> IsDigit(s[i])
    ensures ToUpper(s) == s
  {
  }

  predicate EndsWith(s: string, suffix: string) {
    |suffix| <= |s| && s[|s| - |suffix|..] == suffix
  }

  lemma ConcatEnds(a: string, b: string)
    ensures StartsWithAt(a + b, 0, a)
    ensures EndsWith(a + b, b)
  {
    assert (a + b)[..|a|] == a;
    assert (a + b)[|a + b| - |b|..] == b;
  }

  /** `s.includes(sub)`. */
  predicate Includes(s: string, sub: string) {
    StartsWithAt(s, 0, sub) || (s != [] && Includes(s[1..], sub))
  }

  predicate StartsWithAt(s: string, i: nat, prefix: string) {
    i + |prefix| <= |s| && s[i..i + |prefix|] == prefix
  }

  /** `s.includes(sub)` holds exactly when `sub` occurs at some position of `s`. */
  lemma {:induction false} IncludesIff(s: string, sub: string)
    ensures Includes(s, sub) <==> exists i: nat :: StartsWithAt(s, i, sub)
  {
    if s != [] {
      IncludesIff(s[1..], sub);
      if exists i: nat :: StartsWithAt(s, i, sub) {
        var i: nat :| StartsWithAt(s, i, sub);
        if i > 0 { assert StartsWithAt(s[1..], i - 1, sub); }
      }
      if Includes(s[1..], sub) {
        var i: nat :| StartsWithAt(s[1..], i, sub);
        assert StartsWithAt(s, i + 1, sub);
      }
    }
  }

  /** Lines each closed by `\n`, the shape every `text += `...\n`` builder produces. */
  function Unlines(lines: seq<string>): string {
    if lines == [] then "" else lines[0] + "\n" + Unlines(lines[1..])
  }

  lemma {:induction false} UnlinesAppend(a: seq<string>, b: seq<string>)
    ensures Unlines(a + b) == Unlines(a) + Unlines(b)
  {
    if a != [] {
      assert (a + b)[0] == a[0] && (a + b)[1..] == a[1..] + b;
      UnlinesAppend(a[1..], b);
      assert Unlines(a + b) == a[0] + "\n" + Unlines(a[1..] + b);
    } else {
      assert a + b == b;
    }
  }

  lemma UnlinesSnoc(lines: seq<string>, line: string)
    ensures Unlines(lines + [line]) == Unlines(lines) + line + "\n"
  {
    UnlinesAppend(lines, [line]);
    assert Unlines([line]) == line + "\n" + Unlines([]);
  }

  /** Writing `line + '\n'` after a line-built text extends its lines by one. */
  lemma AppendLine(text0: string, text: string, lines: seq<string>, line: string)
    requires text == text0 + Unlines(lines)
    ensures text + line + "\n" == text0 + Unlines(lines + [line])
  {
    UnlinesSnoc(lines, line);
  }

  /** Writing a block of lines after a line-built text appends the block's lines. */
  lemma AppendLines(text: string, more: string, lines: seq<string>, block: seq<string>)
    requires text == Unlines(lines) && more == Unlines(block)
    ensures text + more == Unlines(lines + block)
  {
    UnlinesAppend(lines, block);
  }

  lemma SplitAfter(a: string, b: string, sep: char)
    requires sep !in a
    ensures Split(a + [sep] + b, sep) == [a] + Split(b, sep)
    decreases |a|
  {
    var s := a + [sep] + b;
    if a == [] {
      assert s[1..] == b;
    } else {
      assert s[1..] == a[1..] + [sep] + b;
      SplitAfter(a[1..], b, sep);
      assert [a[0]] + a[1..] == a;
    }
  }

  /**
   * Splitting a line-built text at `\n` gives back its lines, followed by the
   * empty piece after the final terminator: one line per `+= ...\n`.
   */
  lemma {:induction false} SplitUnlines(lines: seq<string>)
    requires forall k :: 0 <= k < |lines| ==> '\n' !in lines[k]
    ensures Split(Unlines(lines), '\n') == lines + [""]
  {
    if lines != [] {
      SplitUnlines(lines[1..]);
      SplitAfter(lines[0], Unlines(lines[1..]), '\n');
      assert [lines[0]] + (lines[1..] + [""]) == lines + [""];
    }
  }
}
