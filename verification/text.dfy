/** Character and string helpers with the .NET meaning of `Trim`, `StartsWith`, `Split`, `ToLower`. */
module Text {

  /** The white space that `Trim()`, the regex class `\s` and number parsing skip
      (space and U+0009..U+000D; the rest of Unicode's white space is not modelled). */
  predicate IsSpace(c: char) {
    c == ' ' || '\t' <= c <= '\r'
  }

  predicate IsQuote(c: char) {
    c == '"'
  }

  /** The characters of `TrimEnd(',', ' ')`. */
  predicate IsCommaOrSpace(c: char) {
    c == ',' || c == ' '
  }

  /** The characters of `Trim(' ', ',', '"')` applied to an array element line. */
  predicate IsItemPadding(c: char) {
    c == ' ' || c == ',' || c == '"'
  }

  /** Drops the longest prefix made of `drop` characters. */
  function TrimStart(s: string, drop: char -> bool): string
    decreases |s|
  {
    if |s| > 0 && drop(s[0]) then TrimStart(s[1..], drop) else s
  }

  /** Drops the longest suffix made of `drop` characters. */
  function TrimEnd(s: string, drop: char -> bool): string
    decreases |s|
  {
    if |s| > 0 && drop(s[|s| - 1]) then TrimEnd(s[..|s| - 1], drop) else s
  }

  /** `TrimStart` removes exactly the leading `drop` characters: what it removed all
      satisfy `drop`, and what is left does not start with one. */
  lemma {:induction false} TrimStartSpec(s: string, drop: char -> bool)
    ensures var r := TrimStart(s, drop);
      && |r| <= |s| && r == s[|s| - |r|..]
      && (forall k :: 0 <= k < |s| - |r| ==> drop(s[k]))
      && (|r| > 0 ==> !drop(r[0]))
    decreases |s|
  {
    if |s| > 0 && drop(s[0]) {
      TrimStartSpec(s[1..], drop);
    }
  }

  /** `TrimEnd` removes exactly the trailing `drop` characters. */
  lemma {:induction false} TrimEndSpec(s: string, drop: char -> bool)
    ensures var r := TrimEnd(s, drop);
      && |r| <= |s| && r == s[..|r|]
      && (forall k :: |r| <= k < |s| ==> drop(s[k]))
      && (|r| > 0 ==> !drop(r[|r| - 1]))
    decreases |s|
  {
    if |s| > 0 && drop(s[|s| - 1]) {
      TrimEndSpec(s[..|s| - 1], drop);
    }
  }

  /** Drops `drop` characters from both ends. */
  function Trim(s: string, drop: char -> bool): string {
    TrimEnd(TrimStart(s, drop), drop)
  }

  /** Neither end of a trimmed string can be trimmed further. */
  lemma TrimEnds(s: string, drop: char -> bool)
    ensures var r := Trim(s, drop); |r| > 0 ==> !drop(r[0]) && !drop(r[|r| - 1])
  {
    TrimStartSpec(s, drop);
    TrimEndSpec(TrimStart(s, drop), drop);
  }

  /** `string.Trim()`. */
  function TrimWhite(s: string): string {
    Trim(s, IsSpace)
  }

  predicate StartsWith(s: string, c: char) {
    |s| > 0 && s[0] == c
  }

  predicate EndsWith(s: string, c: char) {
    |s| > 0 && s[|s| - 1] == c
  }

  predicate NoneSatisfy(s: string, p: char -> bool) {
    forall k :: 0 <= k < |s| ==> !p(s[k])
  }

  /** Trimming a string whose ends cannot be trimmed leaves it unchanged. */
  lemma TrimUntouched(s: string, drop: char -> bool)
    requires |s| > 0 ==> !drop(s[0]) && !drop(s[|s| - 1])
    ensures Trim(s, drop) == s
  {
    assert TrimStart(s, drop) == s;
  }

  /** Trimming the front of `pad + s`, where `pad` is all `drop` characters and `s` does
      not start with one, leaves `s`. */
  lemma {:induction false} TrimStartPadding(pad: string, s: string, drop: char -> bool)
    requires forall k :: 0 <= k < |pad| ==> drop(pad[k])
    requires |s| > 0 && !drop(s[0])
    ensures TrimStart(pad + s, drop) == s
    decreases |pad|
  {
    if |pad| > 0 {
      assert (pad + s)[1..] == pad[1..] + s;
      TrimStartPadding(pad[1..], s, drop);
    } else {
      assert pad + s == s;
    }
  }

  lemma {:induction false} TrimEndPadding(s: string, pad: string, drop: char -> bool)
    requires forall k :: 0 <= k < |pad| ==> drop(pad[k])
    requires |s| > 0 && !drop(s[|s| - 1])
    ensures TrimEnd(s + pad, drop) == s
    decreases |pad|
  {
    if |pad| > 0 {
      assert (s + pad)[..|s + pad| - 1] == s + pad[..|pad| - 1];
      TrimEndPadding(s, pad[..|pad| - 1], drop);
    } else {
      assert s + pad == s;
    }
  }

  function LowerChar(c: char): char {
    if 'A' <= c <= 'Z' then (c as int + 32) as char else c
  }

  function UpperChar(c: char): char {
    if 'a' <= c <= 'z' then (c as int - 32) as char else c
  }

  /** `ToLower()` restricted to the ASCII letters. */
  function Lower(s: string): (r: string)
    ensures |r| == |s|
    ensures forall k :: 0 <= k < |s| ==> r[k] == LowerChar(s[k])
  {
    seq(|s|, k requires 0 <= k < |s| => LowerChar(s[k]))
  }

  function Upper(s: string): (r: string)
    ensures |r| == |s|
    ensures forall k :: 0 <= k < |s| ==> r[k] == UpperChar(s[k])
  {
    seq(|s|, k requires 0 <= k < |s| => UpperChar(s[k]))
  }

  /** `StringComparer.OrdinalIgnoreCase` equality (ASCII case folding). */
  predicate EqualsIgnoreCase(a: string, b: string) {
    Upper(a) == Upper(b)
  }

  /** `s.Split(sep)`: the pieces between separators, empty pieces included. */
  function Split(s: string, sep: char): (parts: seq<string>)
    ensures |parts| >= 1
    decreases |s|
  {
    if |s| == 0 then [""]
    else if s[0] == sep then [""] + Split(s[1..], sep)
    else
      var rest := Split(s[1..], sep);
      [[s[0]] + rest[0]] + rest[1..]
  }

  /** `string.Join(sep, parts)`. */
  function Join(parts: seq<string>, sep: string): string
    decreases |parts|
  {
    if |parts| == 0 then ""
    else if |parts| == 1 then parts[0]
    else parts[0] + sep + Join(parts[1..], sep)
  }

  /** A separator-free piece followed by the separator splits off as one piece. */
  lemma {:induction false} SplitFirst(a: string, sep: char, b: string)
    requires sep !in a
    ensures Split(a + [sep] + b, sep) == [a] + Split(b, sep)
    decreases |a|
  {
    if |a| == 0 {
      assert a + [sep] + b == [sep] + b;
      assert ([sep] + b)[1..] == b;
    } else {
      assert (a + [sep] + b)[1..] == a[1..] + [sep] + b;
      SplitFirst(a[1..], sep, b);
      assert [a[0]] + a[1..] == a;
    }
  }

  /** A separator-free string is one piece. */
  lemma {:induction false} SplitNone(a: string, sep: char)
    requires sep !in a
    ensures Split(a, sep) == [a]
    decreases |a|
  {
    if |a| > 0 {
      SplitNone(a[1..], sep);
      assert [a[0]] + a[1..] == a;
    }
  }

  /** Splitting undoes joining when no piece contains the separator. */
  lemma {:induction false} SplitJoin(parts: seq<string>, sep: char)
    requires |parts| >= 1
    requires forall i :: 0 <= i < |parts| ==> sep !in parts[i]
    ensures Split(Join(parts, [sep]), sep) == parts
    decreases |parts|
  {
    if |parts| == 1 {
      SplitNone(parts[0], sep);
    } else {
      SplitJoin(parts[1..], sep);
      SplitFirst(parts[0], sep, Join(parts[1..], [sep]));
      assert [parts[0]] + parts[1..] == parts;
    }
  }

  /** Keeps the non-empty strings, in order (`StringSplitOptions.RemoveEmptyEntries`). */
  function NonEmpty(parts: seq<string>): (r: seq<string>)
    ensures |r| <= |parts|
    ensures forall i :: 0 <= i < |r| ==> |r[i]| > 0
    ensures forall i :: 0 <= i < |parts| && |parts[i]| > 0 ==> parts[i] in r
    ensures forall p :: p in r ==> p in parts
    decreases |parts|
  {
    if |parts| == 0 then []
    else if |parts[0]| == 0 then NonEmpty(parts[1..])
    else [parts[0]] + NonEmpty(parts[1..])
  }

  /** Applies `Trim()` to every piece. */
  function TrimAll(parts: seq<string>): (r: seq<string>)
    ensures |r| == |parts|
    ensures forall i :: 0 <= i < |parts| ==> r[i] == TrimWhite(parts[i])
  {
    seq(|parts|, i requires 0 <= i < |parts| => TrimWhite(parts[i]))
  }
}
